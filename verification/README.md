# OONF core structures

OONF is the framework under the olsrd2 mesh-routing daemon. This project models its core data
structures, its RFC 5444 packet codec and its state machines, and proves what they promise.

| module | what it models |
|---|---|
| `AvlShape`, `AvlList`, `AvlTree` | the AVL tree with parent pointers, threaded with a ring list; elements with equal keys ("followers") live in the list only |
| `AddrBlock`, `AddrBlockIo`, `AddrBlockReader` | the address block format: writer, parser, and their round trip |
| `AddrCompress`, `AddrCost`, `AddrFragment`, `AddrOverrun` | the choice of address blocks, what they are charged and what they take, the loop that splits a message into fragments, and messages that become too large |
| `AddrTlv`, `AddrTlvWriter`, `AddrTlvReader` | address TLVs: run-length grouping, and what the reader makes of it |
| `MessageBody`, `MessageIo`, `Message`, `Transmission` | message bodies, message headers, and a message from end to end |
| `Packet`, `PacketWriter`, `Reception` | packet headers, packet TLVs, the flush that compacts a packet, and a packet of messages read back |
| `WireFormat` | the bytes of packets, messages, address blocks and TLVs in plain numbers |
| `Timer` | the timer scheduler and its walk with callbacks that start and stop timers |
| `Subsystem` | the plugin registry: initialization in dependency order, and cleanup in reverse |
| `DuplicateSet` | the sliding windows of sequence numbers that wrap around |
| `Layer2Data`, `Layer2` | the layer-2 database with its redundant indices and its originators |
| `ConfigDelta` | which configuration handlers run when one database replaces another |
| `Codes` | the time code of RFC 5497 and the metric code of RFC 7181 |
| `Bitstream`, `Isonumber` | bit streams, and fixed-point numbers as text |
| `Basics`, `Rfc5444`, `Arith` | shared types, constants and arithmetic |

Objects that the code updates in place are classes; a method is proved against a function of its old
state, and lemmas state what that function means. Where the original takes callbacks, random numbers
or cost estimates, the model takes arbitrary functions, so the results hold for all of them.

The constants come from section 5 of RFC 5444 and from `include/oonf/librfc5444/rfc5444.h`.

## Where the code does not do what it promises

The members named here state where it goes wrong, mostly with an input and with the exact condition.

- Fragmentation can run forever. When a fragment starts with an address that does not fit alone, the
  loop sends one empty message after the other (`Spin`). A message is sent, refused or trapped, and
  it is trapped only at such an address (`Follow`). Two addresses are enough, the second one being
  too large (`SecondTooDear`, `DearJob`). The code checks the first address only.
- An address block may get more than 255 addresses, and its number field wraps around. The number is
  checked for an entry of the session that fits, but not for the entry that is chosen in the end
  (`LongBlock`, `AlternatingJob`: 256 addresses in one block). A fragment can be written if and only if
  none of the blocks chosen is longer (`TilesWritable`); 255 addresses in the message are always few
  enough (`Deliver`).
- A message may become larger than it is allowed to be. What is charged for a block is its size without a
  common tail, exactly, if and only if the prefix length does not change in it; otherwise it is too low
  (`ChargeExact`), and two addresses of 14 bytes pass for 13 (`Overlong`, `TwoLengthsJob`). And an address
  that does not fit can close a cheap block, so that a dearer one is sent (`TooDear`,
  `DearToContinueJob`). Every fragment fits when all addresses have one prefix length and the TLVs of
  an address never cost more than three bytes more in an open block than in a new one (`FragmentsFit`);
  without TLVs that second condition always holds.
- Names of plugins are looked up without regard to case, but a cleanup compares them with regard to
  it. A plugin that spells a dependency differently survives it (`MixedCase`). The registry stays
  closed under dependencies if and only if the exact spellings reach every dependant
  (`SpellingExact`); spelling every name as it was registered is enough (`SpelledSuffices`). What is left
  can end in a cycle by exact names, on which a cleanup does not return (`EndlessCleanup`). Every plugin
  can be cleaned up if and only if there is no such cycle (`CleanableExact`).
- A failed initialization leaves marks behind, and a later one takes a mark for a cycle: a plugin is
  refused although everything it needs is there (`StaleMark`). An initialization succeeds if and only
  if the plugin can start without any other marked plugin (`Init`).
- Removing a layer-2 originator is documented to remove all of its data, but the addresses of local
  peers stay unless their network goes, too (`PeerSurvives`). `PurgedExact` says what is left of every
  kind of data. Nothing is left if and only if the originator owns every network with one of its peer
  addresses (`PurgedAll`, `DroppedWhen`).
- Parsing a printed number gives it back if and only if it has no fractional part, or its product
  with the scaling fits 64 bits (`ParsedExact`, `RoundTrip`). 9223372036854775.807 comes back as
  18446744073709.55 (`LargestLost`).
- A query by `oonf_duplicate_test` is to leave the entry unchanged. It does so if and only if the number
  is the current one, or not too old while no too old one has been counted (`Test`, `Check`, by the
  condition `Harmless`). A too old number is counted, a number inside the window clears the count, and
  the ninth too old one in a row resets the entry: nine queries for 50 move one that stood at 100
  (`QueriesReset`).
- Sections of a type with a default name are not always handled. A side without named sections gets a
  section with the default name. When both sides get it, the handler is not called for it, whatever
  has changed in the unnamed section (`MissedChange`). When one side gets it and the other one has a
  section of that name, the handler is called twice (`CalledTwice`). There is exactly one call for each
  affected instance if and only if no side gets the default section, or both get it and its values do
  not differ, or one gets it and no database names it (`HandleSection`, by the condition `Handled`).
  What the handler is told is true except when the default section goes away (`CalledForNothing`).

## Model

| member | source | states |
|---|---|---|
| AvlTree.Tree.Insert | src/libcommon/avl.c:214-282 | For every valid tree and new node: the insertion fails exactly when duplicates are forbidden and the key is present; otherwise the list is the old one with the node behind the head of its group, or between its neighbours. The tree stays ordered, balanced to within one, mutually linked, counted, and equal to the heads of the list in order |
| AvlTree.Tree.Remove | src/libcommon/avl.c:290-332 | Removing any element leaves a valid tree whose list is the old one without that node, whether it was a follower, a head with followers, or alone; the node is unlinked |
| AvlTree.Tree.RemovePromoting | src/libcommon/avl.c:290-332 | Removing a head makes its first follower the head in its place, in the list and in the tree |
| AvlTree.Tree.RemoveWorker | src/libcommon/avl.c:644-777 | Taking a node out of the search tree, with no, one or two children, leaves a linked, balanced tree whose walk is the old one without it |
| AvlTree.Tree.PostInsert | src/libcommon/avl.c:463-507 | Climbing from a subtree that has grown by one level restores the balance of the whole tree and keeps its walk |
| AvlTree.Tree.PostRemove | src/libcommon/avl.c:554-612 | Climbing from a subtree that has lost one level restores the balance of the whole tree and keeps its walk |
| AvlShape.HeightBound | src/libcommon/avl.c:463-507 | The height of a balanced tree is logarithmic: height h needs at least the Fibonacci number of h + 2, less one, of nodes |
| AvlTree.Tree.RotateRight | src/libcommon/avl.c:373-410 | The pointer writes of a right rotation turn the linked shape ((a x b) n d) into (a x (b n d)) in place, and the balance fields change by the cited formulas |
| AvlTree.Tree.RotateLeft | src/libcommon/avl.c:418-455 | The mirror image, with its balance formulas |
| AvlTree.Tree.Find | src/libcommon/avl.c:91-101 | The result is the head of the group with an equal key, and NULL only when no element has it |
| AvlTree.Tree.FindLessEqual | src/libcommon/avl.c:112-143 | The result is the last element of the list that is not above the key, and NULL only when all are above |
| AvlTree.Tree.FindGreaterEqual | src/libcommon/avl.c:154-185 | The result is the first element of the list that is not below the key, and NULL only when all are below |
| AvlTree.Tree.FindLast | src/libcommon/avl.c:194-204 | Walking the followers ends with the last element of the group |
| AvlList.InsertedSorted | src/libcommon/avl.c:214-282 | An insertion keeps the list sorted |
| AvlList.InsertedMultiset | src/libcommon/avl.c:214-282 | An insertion adds exactly the one node |
| AddrBlock.RoundTripBlock | src/librfc5444/rfc5444_reader.c:808-905 | Parsing the bytes of a block of 1 to 255 addresses that share its head and, unless flagged, one prefix length gives back the same addresses and prefix lengths, in order, and ends behind the block |
| AddrBlockIo.MessageBuffer.WriteBlock | src/librfc5444/rfc5444_msg_generator.c:1214-1362 | The bytes appended for a block are its format: number, flags, head, tail or zero tail, middles, prefix lengths |
| AddrBlockReader.AddrEntry.Parse | src/librfc5444/rfc5444_reader.c:808-905 | The parser that fills the entry object gives the result, position and entry of the format on every input, malformed ones included |
| AddrBlockReader.AddrEntry.AssembleOne | src/librfc5444/rfc5444_reader.c:948-1031 | Copying a middle into the shared template gives address i, whatever address was assembled before |
| AddrCompress.SessionContinues | src/librfc5444/rfc5444_msg_generator.c:851-1066 | Adding an address keeps every open block good: its addresses share its head and, unless flagged multiple, one prefix length |
| AddrCompress.NewCostBytes | src/librfc5444/rfc5444_msg_generator.c:851-1066 | What is charged for an address on its own is the number of bytes of its block, with two for the length of the TLV block, and its TLVs; one byte more with a head |
| AddrCompress.ForwardStep | src/librfc5444/rfc5444_msg_generator.c:1455-1474 | Setting a forward pointer extends the chain of good blocks by the block in front |
| AddrCompress.TilesExpand | src/librfc5444/rfc5444_msg_generator.c:1455-1474 | Blocks that tile a fragment hold exactly its addresses, in order |
| AddrCost.ChargeExact | src/librfc5444/rfc5444_msg_generator.c:851-1066 | What is charged for a block, address by address, is its size without a tail, with the TLV block, if and only if the prefix length does not change in it, and less otherwise |
| AddrCost.SizeCovered | src/librfc5444/rfc5444_msg_generator.c:851-1066 | With one prefix length, the blocks of a fragment take no more bytes than they are charged |
| AddrFragment.Composer.Close | src/librfc5444/rfc5444_msg_generator.c:807-838 | Every entry with a longer head gets the smallest total from the common head on, and the last address is marked with the entry of that total, the shortest head among equals |
| AddrFragment.Composer.Compress | src/librfc5444/rfc5444_msg_generator.c:851-1066 | The entries become exactly those of the advanced session, all blocks closed at the common head included; the session stays good, the address before is marked with a good block, and an address that is too dear for every block fits no entry |
| AddrFragment.Composer.BestHead | src/librfc5444/rfc5444_msg_generator.c:324-336 | The entry found has the smallest size among those that fit, and there is none exactly when -1 is returned |
| AddrFragment.Composer.Forward | src/librfc5444/rfc5444_msg_generator.c:1455-1474 | Walking back over the marks makes a chain of good blocks from the first address of the fragment to the last |
| AddrFragment.Composer.Step | src/librfc5444/rfc5444_msg_generator.c:273-389 | One turn of the loop: addresses that are done are skipped; at the start of a fragment the next one is taken if and only if it fits alone, later if and only if some entry can take it; otherwise the fragment is sent in front of it, at the cost of the cheapest entry, and only the very first address leads to an error |
| AddrFragment.Composer.CreateMessage | src/librfc5444/rfc5444_msg_generator.c:273-396 | When every later address fits alone, the loop ends although it goes back; it is an error exactly when the bytes of the first address on its own exceed the maximum size; otherwise every fragment is non-empty, tiled by good blocks, and the fragments concatenate to the addresses of the message, for every cost function; a message without addresses is sent once |
| AddrFragment.Composer.Follow | src/librfc5444/rfc5444_msg_generator.c:273-396 | Every message is sent completely, refused because the bytes of its first address exceed the maximum size, or trapped at the start of a fragment whose address does not fit alone, with the addresses before it sent |
| AddrFragment.Composer.Spin | src/librfc5444/rfc5444_msg_generator.c:338-367 | A trapped loop stays trapped for any number of turns, and each turn sends another empty fragment |
| AddrFragment.Composer.SecondTooDear | src/librfc5444/rfc5444_msg_generator.c:338-367 | A message whose first address fits and whose second one is too large for every block is trapped: one fragment, then as many empty ones as there are turns |
| AddrFragment.DearJob | src/librfc5444/rfc5444_msg_generator.c:338-367 | Two such addresses, with concrete costs |
| AddrFragment.Composer.LongBlock | src/librfc5444/rfc5444_msg_generator.c:324-398 | 256 addresses whose cheapest block holds all of them: the fragment is sent with a block that is one address too long |
| AddrFragment.SentExpand | src/librfc5444/rfc5444_msg_generator.c:1423-1581 | Fragments that have been sent hold the first addresses of the message, each once and in order |
| AddrFragment.FragmentsFit | src/librfc5444/rfc5444_msg_generator.c:273-396 | With one prefix length and no dear continuation, every fragment with addresses fits the maximum size |
| AddrOverrun.Overlong | src/librfc5444/rfc5444_msg_generator.c:851-1066 | Two addresses with different prefix lengths that are sent in 14 bytes where 13 are allowed |
| AddrOverrun.TooDear | src/librfc5444/rfc5444_msg_generator.c:851-1066 | Three addresses, the third of which closes a block of cost 8, so that the first two are sent for 13 where 10 are allowed |
| AddrTlv.RoundTripGroup | src/librfc5444/rfc5444_reader.c:447-546 | Parsing the bytes of a group of address TLVs gives an entry with the same type, index range and, for every index, the same value |
| AddrTlvWriter.TlvWriter.WriteTlv | src/librfc5444/rfc5444_msg_generator.c:1069-1136 | The bytes appended for a group are its format, with the flags for type extension, index, value length and multiple values |
| AddrTlvWriter.TlvWriter.WriteTlvs | src/librfc5444/rfc5444_msg_generator.c:1148-1205 | With at most one TLV of a type on an address, the groups written give every address of the block exactly the TLVs of its tree |
| AddrTlvReader.RoundTripTlvs | src/librfc5444/rfc5444_reader.c:559-609 | Parsing the TLV block of an address block hands every address index exactly what the groups mean for it |
| AddrTlvReader.ScheduleTlvs | src/librfc5444/rfc5444_reader.c:623-795 | The consumer calls for an address index are the entries whose index range holds it, each with its own part of the value |
| MessageBody.BodyParsed | src/librfc5444/rfc5444_reader.c:1074-1278 | Parsing the address blocks and TLV blocks of a fragment gives one section for each block, with its addresses and their TLVs |
| MessageIo.BodyWriter.WriteAddresses | src/librfc5444/rfc5444_msg_generator.c:1214-1362 | The loop over the blocks appends each block and its TLV block, with the length filled in behind, and the groups mean the TLVs of the addresses |
| MessageIo.TilesWritable | src/librfc5444/rfc5444_msg_generator.c:1214-1362 | The blocks of a fragment can be written if and only if none of them has more than 255 addresses; no fragment of at most 255 addresses has such a block |
| MessageIo.ReadFragment | src/librfc5444/rfc5444_reader.c:1074-1278 | Reading the bytes of a fragment calls the consumers with its addresses in order, each with exactly its TLVs |
| Message.WriteHeader | src/librfc5444/rfc5444_msg_generator.c:1370-1410 | The header is type, flags and address length, size, and the optional fields in their order; the bits 128, 64, 32 and 16 of the flags stand for originator, hop limit, hop count and sequence number |
| Message.ReadHeader | src/librfc5444/rfc5444_reader.c:1074-1278 | Reading a header that fits the buffer gives back every field, present or absent, and continues behind it |
| Message.RoundTripMessage | src/librfc5444/rfc5444_reader.c:1074-1278 | Reading a whole message gives back the header fields, the message TLVs as a multiset, and the address blocks with the TLVs of each address |
| WireFormat.HeaderOnWire | src/librfc5444/rfc5444_msg_generator.c:1370-1410 | Every field of a message header stands at its place, announced by its bit |
| WireFormat.MessageOnWire | src/librfc5444/rfc5444_msg_generator.c:1370-1410 | Behind the header come the length of the TLVs, the TLVs and the address blocks, and the size field counts all of it |
| WireFormat.SectionOnWire | src/librfc5444/rfc5444_msg_generator.c:1214-1362 | An address block is followed by the length of its TLVs and the TLVs |
| WireFormat.BlockOnWire | include/oonf/librfc5444/rfc5444_context.h:168-173 | The number, the five bits of the flags, head and tail of an address block, the tail being the longest common one |
| WireFormat.AddressOnWire | src/librfc5444/rfc5444_msg_generator.c:1214-1362 | The middle part and the prefix length of address i stand at their places in the block |
| WireFormat.GroupOnWire | include/oonf/librfc5444/rfc5444_context.h:175-181 | Type, the six bits of the flags, extension, index range, length and value of an address TLV |
| WireFormat.ValueOnWire | src/librfc5444/rfc5444_msg_generator.c:1069-1136 | The value of an address TLV is the common one, or the k-th part is that of the k-th address |
| WireFormat.TlvOnWire | src/librfc5444/rfc5444_tlv_writer.c:194-232 | Type, flags, extension, length and value of a packet or message TLV |
| WireFormat.PacketOnWire | src/librfc5444/rfc5444_pkt_generator.c:112-202 | Version, the two bits of the flags, sequence number, TLV block and messages of a packet |
| Transmission.WriteMessage | src/librfc5444/rfc5444_msg_generator.c:1423-1581 | The bytes of a fragment are header, message TLVs and address blocks, and its groups mean the TLVs of its addresses |
| Transmission.ReadMessage | src/librfc5444/rfc5444_reader.c:1074-1278 | Those bytes arrive as the header, the message TLVs and the addresses of the fragment in order with their TLVs |
| Transmission.Deliver | src/librfc5444/rfc5444_msg_generator.c:273-396 | From end to end: over all fragments of a message, the receivers see every address once, in order, with exactly its TLVs, and the header and the message TLVs with every fragment, whenever no block is too long for its number field and no message for its size field; at most 255 addresses never make a block too long |
| PacketWriter.Buffer.Begin | src/librfc5444/rfc5444_pkt_generator.c:63-102 | A new packet is empty, with room for its header |
| PacketWriter.Buffer.Add | src/librfc5444/rfc5444_tlv_writer.c:91-105 | In the phase for adding TLVs, a TLV is stored behind the others exactly when header, added, allocated and new bytes fit, and is refused without a change otherwise |
| PacketWriter.Buffer.Allocate | src/librfc5444/rfc5444_tlv_writer.c:117-128 | Room is reserved exactly when it fits |
| PacketWriter.Buffer.Set | src/librfc5444/rfc5444_tlv_writer.c:143-157 | A TLV is set exactly when it fits into the reserved room that is left; what is set never exceeds what is allocated |
| PacketWriter.Buffer.AddMessage | src/librfc5444/rfc5444_msg_generator.c:1539-1570 | A message is copied behind the reserved room and leaves everything else as it is |
| PacketWriter.Buffer.Flush | src/librfc5444/rfc5444_pkt_generator.c:112-202 | Without post-processors the packet sent is header, added TLVs, set TLVs and messages: moving the messages over unused room loses no byte; a flushed packet is sent again only by force, as an empty one |
| Packet.RoundTripTlv | src/librfc5444/rfc5444_reader.c:447-546 | Parsing a packet or message TLV gives back its type, extension and value |
| Packet.RoundTripTlvBlock | src/librfc5444/rfc5444_reader.c:559-609 | Parsing a TLV block gives back the TLVs written, as a multiset |
| Packet.RoundTripPacket | src/librfc5444/rfc5444_reader.c:134-263 | Reading a packet gives back the sequence number, the multiset of TLVs and the bytes of the messages |
| Reception.ReadMessages | src/librfc5444/rfc5444_reader.c:134-263 | The loop over the messages of a packet reads one behind the other, up to the end or the first bad one |
| Reception.AllMessages | src/librfc5444/rfc5444_reader.c:134-263 | Any number of written messages, one behind the other, are read back as these messages, in order, each with its header, TLVs and addresses |
| Reception.PacketOfMessages | src/librfc5444/rfc5444_reader.c:134-263 | A packet of n messages is read back as these n messages behind its sequence number and its TLVs |
| Timer.CalcClock | src/base/oonf_timer.c:337-359 | The time is a multiple of the slice, after now, and at most one slice after the interval with the jitter taken off |
| Timer.Jittered | src/base/oonf_timer.c:337-359 | The jitter takes off at most its percentage |
| Timer.JitterRange | src/base/oonf_timer.c:337-359 | It goes from nothing to the whole percentage, growing with the random number |
| Timer.Scheduler.Start | src/base/oonf_timer.c:160-195 | The timer is in the tree at the time calculated, once, the tree stays sorted, and the usage of every class is its number of running timers |
| Timer.Scheduler.StopTimer | src/base/oonf_timer.c:202-218 | The timer is out of the tree, the others stay, and a stop inside its own callback is noted |
| Timer.Scheduler.Set | src/base/oonf_timer.c:230-239 | Setting starts the timer, or stops it when no time is given |
| Timer.Scheduler.RunCallback | src/base/oonf_timer.c:160-239 | After a callback, every timer is as the last action about it leaves it: started at the time calculated for its first interval, or stopped; all others are as before |
| Timer.Scheduler.Fire | src/base/oonf_timer.c:246-305 | The first due timer fires; all timers are then as the last of these leaves them: the stop of a timer without a period, the actions of the callback, and the new start of a timer that has not been stopped; neither the timer nor any that its callback started or set is due |
| Timer.Scheduler.Walk | src/base/oonf_timer.c:246-305 | For arbitrary callbacks that start, set and stop any timers: the walk ends with no timer due, fires in order of time, fires no timer twice, and the timers due at its start are exactly those that fired and those that a callback stopped or started before; every timer ends as the last action about it in all the callbacks leaves it, in the tree exactly when it runs |
| Timer.Scheduler.Advance | src/base/oonf_timer.c:246-305 | When time passes, the timers stay in their order, and exactly those become due whose time has come |
| Timer.Scheduler.StartAndWait | src/base/oonf_timer.c:160-305 | A timer fires in the first walk that comes a slice after the time asked for, unless a callback of that walk stops or sets it |
| Subsystem.Registry.InitPlugin | src/libcore/oonf_subsystem.c:382-441 | From any point of the search, the recursion ends on every graph, cycles and missing names included; only the plugin and what it depends on are initialized, each init runs at most once, after all dependencies; failures are reported exactly when the plugin cannot start, marked plugins counting as missing |
| Subsystem.Registry.Init | src/libcore/oonf_subsystem.c:382-441 | From any marks that earlier failures have left, the result is 0 if and only if the reachable graph without the other marked plugins is closed and acyclic and nothing in it fails; -1 means that a dependency is missing or something fails, 1 that there is a cycle or a mark from before; a success takes the mark of the plugin away and leaves the others |
| Subsystem.StaleMark | src/libcore/oonf_subsystem.c:382-441 | A registry with a plugin that can start and is refused, because of the mark that an earlier failure has left on its dependency |
| Subsystem.Registry.CleanupPlugin | src/libcore/oonf_subsystem.c:444-468 | The recursion ends because initialized plugins have ranks; every dependant is cleaned up before the plugin, each one once |
| Subsystem.Registry.Cleanup | src/libcore/oonf_subsystem.c:444-468 | Exactly the plugin and those that need it by name are cleaned up, dependants first, and the others stay initialized in their order; it starts from every registry without a cycle by exact names, closed or not, and leaves one |
| Subsystem.Registry.Unload | src/libcore/oonf_subsystem.c:478-498 | Unloading is refused exactly for a plugin without cleanup outside of shutdown; otherwise the plugin leaves the tree and exactly those that need it are no longer initialized; no cycle by exact names comes up, and the registry stays closed when it was and the spellings suffice |
| Subsystem.CleanableExact | src/libcore/oonf_subsystem.c:444-468 | Every initialized plugin can be cleaned up behind its dependants if and only if the dependencies have no cycle by exact names |
| Subsystem.EndlessCleanup | src/libcore/oonf_subsystem.c:444-468 | A run of the registry that ends in such a cycle, after a cleanup has left a plugin behind that spells its dependency differently |
| Subsystem.Registry.Hook | src/libcore/oonf_subsystem.c:236-248 | A plugin whose name is taken is not hooked |
| Subsystem.SpellingExact | src/libcore/oonf_subsystem.c:444-468 | The initialized plugins stay closed under dependencies after every possible cleanup if and only if every dependant reaches its dependency by exact spelling |
| Subsystem.SpelledSuffices | src/libcore/oonf_subsystem.c:444-468 | Spelling every dependency as its plugin was registered is enough |
| Subsystem.MixedCase | src/libcore/oonf_subsystem.c:444-468 | Two plugins for which it fails: "app" depends on "Core", is initialized behind "core", and survives it |
| DuplicateSet.DifferenceUnwraps | src/base/oonf_duplicate_set.c:272-287 | For 8, 16, 32 and 64 bits: the difference of two wrapped numbers is that of the unwrapped ones if and only if they are less than half the range apart |
| DuplicateSet.UnwrapCongruent | src/base/oonf_duplicate_set.c:272-287 | The unwrapped number found by the difference is always one that the wrapped number stands for |
| DuplicateSet.WindowNewer | src/base/oonf_duplicate_set.c:301-356 | Shifting the history by the distance keeps bit i for "current - i has been accepted", for distances of 32 and more, too |
| DuplicateSet.Entry.Test | src/base/oonf_duplicate_set.c:301-356 | Over every run: history bit i says whether current - i has been accepted since the last reset; no unwrapped number is accepted twice; the verdict says whether the number has been accepted before, is accepted now, or is too old; a reset happens exactly on the ninth too old number without one inside the window or newer in between; and a query leaves the entry alone if and only if the number is harmless |
| DuplicateSet.Duplicates.Add | src/base/oonf_duplicate_set.c:177-229 | Every pair of originator and message type has its own window, which takes the number as an entry of its own does, with its verdict; the validity is renewed exactly for new, newest and first numbers |
| DuplicateSet.Duplicates.Check | src/base/oonf_duplicate_set.c:243-269 | A query gives the verdict of the window; it leaves the entry alone if and only if the number is harmless, and otherwise it counts, clears the count or resets like any other |
| DuplicateSet.QueriesReset | src/base/oonf_duplicate_set.c:243-269 | Nine queries that move an entry |
| DuplicateSet.Duplicates.Expire | src/base/oonf_duplicate_set.c:393-404 | An expired entry is forgotten, the others stay |
| Layer2.Database.RemoveOrigin | src/base/oonf_layer2.c:262-274 | For a registered originator the database afterwards shows exactly the purged old one, with all indices in agreement; for any other nothing changes |
| Layer2.Database.RemoveNet | src/base/oonf_layer2.c:581-603 | One network loses exactly what the originator had in it, and is dropped exactly when it lost something and nothing is left |
| Layer2.Database.CommitNet | src/base/oonf_layer2.c:612-636 | A commit drops a network exactly when it has no neighbors and no values |
| Layer2.Database.AddAndCommit | src/base/oonf_layer2.c:490-636 | A new network that is committed at once is gone, and all is as before |
| Layer2.Database.AddAndRemoveOrigin | src/base/oonf_layer2.c:262-636 | A new network with one value of an originator that has nothing else is gone with the originator, and all is as before |
| Layer2.Database.DropNet | src/base/oonf_layer2.c:1491-1513 | Dropping a network takes its neighbors and peer addresses out of every index and leaves all other networks alone |
| Layer2.Database.AddNet | src/base/oonf_layer2.c:490-536 | A new network is empty; a known one is returned unchanged |
| Layer2.Database.AddPeer | src/base/oonf_layer2.c:683-712 | A peer address enters both indices once, or only changes its originator |
| Layer2.Database.RemovePeer | src/base/oonf_layer2.c:721-732 | A peer address leaves both indices exactly when the originator is its own |
| Layer2.Database.RelabelNet | src/base/oonf_layer2.c:646-673 | Every item of the old originator in the network, peer addresses included, gets the new one, and nothing else changes |
| Layer2.Database.EditNet | src/base/oonf_layer2.c:823-948 | Every change of a network, its neighbors, their addresses, destinations or data does what its description on values says, leaves all other networks alone, and keeps all indices in agreement |
| Layer2.Database.IndexIsUnion | src/base/oonf_layer2.c:683-732 | In every valid database the global index of peer addresses is the disjoint union of the trees of the networks |
| Layer2.Network.IndexIsUnion | src/base/oonf_layer2.c:1026-1078 | In every valid network the index of neighbor addresses is the disjoint union of the trees of its neighbors |
| Layer2.Network.AddNeighbor | src/base/oonf_layer2.c:823-858 | Only MAC addresses make neighbors; a known key gives the known neighbor |
| Layer2.Network.AddAndCommitNeighbor | src/base/oonf_layer2.c:823-948 | A new neighbor that is committed at once is gone, and all is as before |
| Layer2.Network.Cleanup | src/base/oonf_layer2.c:547-571 | Exactly the data slots of the originator are reset, on request those of the neighbors, too, and the result says whether there was one |
| Layer2.Neighbor.Remove | src/base/oonf_layer2.c:889-920 | A neighbor loses exactly what the originator had, and is dropped exactly when it lost something and nothing is left; one without the originator stays even when it is empty |
| Layer2.Neighbor.Commit | src/base/oonf_layer2.c:929-948 | A commit drops a neighbor exactly when it has no destinations, no addresses and no values |
| Layer2.Neighbor.Drop | src/base/oonf_layer2.c:1520-1540 | Dropping a neighbor takes its addresses out of the index of its network |
| Layer2.Neighbor.AddIp | src/base/oonf_layer2.c:1026-1058 | An address enters both indices once, or only changes its originator |
| Layer2.Neighbor.RemoveIp | src/base/oonf_layer2.c:1067-1078 | An address leaves both indices exactly when the originator is its own |
| Layer2.Neighbor.AddDestination | src/base/oonf_layer2.c:1089-1116 | A known destination stays with its originator |
| Layer2.Neighbor.Relabel | src/base/oonf_layer2.c:957-980 | Data, addresses and destinations of the old originator get the new one |
| Layer2Data.PurgedClean | src/base/oonf_layer2.c:262-274 | After an originator has been removed, no network data, neighbor data, neighbor address or destination carries it |
| Layer2Data.PurgedExact | src/base/oonf_layer2.c:581-603 | What remains of every item: those of the originator are gone, those of all others are still there, and peer addresses go exactly with their network |
| Layer2Data.PurgedAll | src/base/oonf_layer2.c:257-274 | Everything of the originator is gone if and only if it owns every network with one of its peer addresses |
| Layer2Data.DroppedWhen | src/base/oonf_layer2.c:581-636 | A network is dropped if and only if the originator has something in it and in each of its neighbors, and nobody else has anything there |
| Layer2Data.NewBlank | include/oonf/base/oonf_layer2.h:832-834 | New networks and neighbors have no values |
| Layer2Data.WriteAndReset | include/oonf/base/oonf_layer2.h:832-834 | A write into a slot without a value gives it one, and a reset takes any value away |
| Layer2Data.HeldOwned | include/oonf/base/oonf_layer2.h:832-834 | Every value has an originator |
| Layer2Data.OwnGone | src/base/oonf_layer2.c:262-274 | Adding a network that belongs to an originator alone, and removing the originator, changes nothing |
| Layer2Data.CarriesHeld | src/base/oonf_layer2.c:581-603 | A removal changes something exactly when the originator holds something else than a peer address |
| Layer2Data.IpUndone | src/base/oonf_layer2.c:1026-1078 | An address is its last originator's, and its removal restores what was before |
| Layer2Data.DestinationUndone | src/base/oonf_layer2.c:1089-1116 | A destination is its first originator's, and its removal restores what was before |
| Layer2Data.PeerSurvives | src/base/oonf_layer2.c:257-274 | A database in which a peer address outlives its originator |
| Layer2Data.PurgesCommute | src/base/oonf_layer2.c:262-274 | Two originators can be removed in either order, with the same networks, neighbors and data left |
| Layer2Data.RelabelThenRemove | src/base/oonf_layer2.c:581-673 | Handing everything to a new originator and removing that one leaves what removing the old one leaves, except that peer addresses are renamed |
| Layer2Data.RelabeledBack | src/base/oonf_layer2.c:646-673 | A relabel to an originator that the network does not know can be taken back |
| Layer2Data.LastWord | src/base/oonf_layer2.c:342-358 | After any writes into an empty slot, it holds the last word of whoever first had the highest priority |
| ConfigDelta.Handler.Compare | src/libconfig/cfg_db.c:368-399 | The change flags say, entry by entry, whether the effective value differs: named section, then unnamed one, then schema default |
| ConfigDelta.OwnValue | src/libconfig/cfg_db.c:368-399 | A value in the named section hides everything else |
| ConfigDelta.UnnamedValue | src/libconfig/cfg_db.c:368-399 | Without it, a value in the unnamed section hides every schema default |
| ConfigDelta.SchemaValue | src/libconfig/cfg_db.c:368-399 | Without both, the value is the schema default, or there is none |
| ConfigDelta.Handler.HandleNamed | src/libconfig/cfg_schema.c:1050-1104 | The handler is called for an instance exactly when the values or the existence of its section, stand-ins for the default name included, say so, with what the code sets for it |
| ConfigDelta.Handler.HandleSection | src/libconfig/cfg_schema.c:874-967 | For every type, named by default or not: there is one call for each affected instance of either database and no other, if and only if the type is handled as it should be, by a condition on the databases; what the calls say is true if and only if the default section does not go away |
| ConfigDelta.PlainHandled | src/libconfig/cfg_schema.c:874-967 | Types without a default name always meet both conditions |
| ConfigDelta.UnnamedHeard | src/libconfig/cfg_schema.c:874-967 | A named section without a value of its own hears of a change in the unnamed one, whatever the schema default is |
| ConfigDelta.SectionHeard | src/libconfig/cfg_schema.c:874-967 | A named section without entries is heard when it comes |
| ConfigDelta.MissedChange | src/libconfig/cfg_schema.c:844-967 | A default-named type and two databases whose effective values differ, without a call of the handler |
| ConfigDelta.CalledTwice | src/libconfig/cfg_schema.c:925-967 | Two databases for which the handler is called twice for the default name |
| ConfigDelta.CalledForNothing | src/libconfig/cfg_schema.c:925-1104 | Two databases for which the handler is called with no section before and after, although there was one before |
| ConfigDelta.HandleChanges | src/libconfig/cfg_schema.c:874-967 | The same for all handlers of a schema |
| Codes.EncodeTime | src/librfc5444/rfc5444.c:90-126 | The loops compute the code that the encoding relation of the adjunction describes, for every 64-bit time |
| Codes.TimeAdjunction | src/librfc5444/rfc5444.c:90-173 | For every 64-bit time and every code c: the encoded time is at most c if and only if the time is at most the decoded c, so encoding gives the least code that is not too short |
| Codes.EncodeMetric | src/librfc5444/rfc5444.c:185-219 | Values out of range are refused or get the last code, and all others the code of the relation |
| Codes.MetricAdjunction | src/librfc5444/rfc5444.c:185-230 | For every value in range and every 12-bit code c: the code is at most c if and only if the value is at most the decoded c |
| Codes.MetricRoundTrip | src/librfc5444/rfc5444.c:185-230 | Encoding a decoded code gives it back |
| Codes.MetricRange | src/librfc5444/rfc5444.c:227-230 | Every code decodes to a value in range |
| Codes.KnownCodes | src/librfc5444/rfc5444.c:137-230 | Some codes and their times and metrics |
| Bitstream.Writer.Write | src/libcommon/bitstream.c:183-232 | A write is refused exactly for more than 56 bits or beyond the buffer, without a change; otherwise the bits of the stream are the old ones followed by the low bits of the value, and no earlier bit has changed |
| Bitstream.Writer.Pad | src/libcommon/bitstream.c:239-247 | A pad moves to the next byte, and the bits behind are still zero |
| Bitstream.Reader.Read | src/libcommon/bitstream.c:60-115 | A read gives the next bits of the buffer, or is refused like a write |
| Bitstream.Finished | src/libcommon/bitstream.c:183-232 | Writing byte by byte from the last one, with an OR into the first, puts the value behind the bits there are |
| Bitstream.WriteAll | src/libcommon/bitstream.c:183-247 | After any successful writes and pads on a fresh stream, every value stands at its place, up to its width |
| Bitstream.ReadAll | src/libcommon/bitstream.c:60-130 | Reading the same widths and pads gives every value back, modulo its width |
| Isonumber.Print | src/libcommon/isonumber.c:249-314 | The text is the whole part and the fractional digits of number / scaling, without trailing zeros, and without a dot when there are none |
| Isonumber.PrintSigned | src/libcommon/isonumber.c:90-114 | The sign stands in front, for the smallest number, too |
| Isonumber.ToU64 | src/libcommon/isonumber.c:156-234 | For the text of a number the result is the number, or the quotient of its product with the scaling modulo 64 bits when there are fractional digits; with spaces and one of the letters k, M, G, T, P and E behind it, the number counts a thousand to the power of 1 to 6 times, and an overflow is an error |
| Isonumber.ToS64 | src/libcommon/isonumber.c:125-145 | The same behind a sign |
| Isonumber.ParsedExact | src/libcommon/isonumber.c:156-234 | The parser gives a printed number back if and only if it has no fractional part or its product with the scaling fits 64 bits |
| Isonumber.LetterExact | src/libcommon/isonumber.c:156-234 | A number with a letter is parsed right if and only if what it stands for, times the scaling, fits 64 bits |
| Isonumber.LetterExamples | src/libcommon/isonumber.c:156-234 | 54M and 1.5 G |
| Isonumber.RoundTrip | src/libcommon/isonumber.c:90-145 | Printing and parsing a signed 64-bit number with a scaling of 1, 10, 100 or 1000 gives it back if and only if it has no fractional part or its product with the scaling fits 64 bits |
| Isonumber.LargestLost | src/libcommon/isonumber.c:156-234 | A number for which it does not: the largest one with three fractional digits |
| Isonumber.PrintLargest | src/libcommon/isonumber.c:90-145 | Printing and parsing that number does not give it back |

## Left out

- AvlTree.Tree.Insert: a comparison function is taken to be the order of a rank; one that is not a total preorder is not covered.
- AddrFragment.Composer.CreateMessage: mandatory addresses, which are repeated in every fragment, are not modelled; every address is non-mandatory, and no address brings a mark from an earlier message.
- AddrFragment.Composer.Compress: the costs of address TLVs are arbitrary functions of the addresses; that they are those of the TLVs written is not claimed.
- AddrFragment.Composer.Follow: consecutive addresses have different bytes; 10.0.0.0/8 next to 10.0.0.0/16, which the writer accepts, is excluded.
- Transmission.Deliver: nothing is said about what a receiver makes of a block of more than 255 addresses, nor about messages of 65536 bytes and more.
- Transmission.WriteMessage: the targets of a message, the flush of full packets and the copy into their buffers are not part of it; `PacketWriter` has the packet side.
- Transmission.Deliver: the content providers and the callback for the header are a list of message TLVs and a header that do not depend on the fragment.
- AddrTlvWriter.TlvWriter.WriteTlvs: two TLVs of one type on one address are not covered; TLVs are ordered by their 16-bit type.
- AddrTlvReader.RoundTripTlvs: entries are kept in the order of the bytes, not in a tree ordered by type, so the order of the consumer calls is not claimed, only their multiset.
- AddrTlvReader.ScheduleTlvs: which consumer entries a TLV matches, mandatory entries and drop bits are not modelled; every TLV is handed over.
- MessageIo.ReadFragment: consumers that drop an address, a message or a packet, and the end callbacks, are not modelled, nor is what follows malformed input beyond the result code of the parsers.
- Message.WriteHeader: the length of the TLV block behind the header is written with the TLVs.
- PacketWriter.Buffer.Begin: handlers that add packet TLVs are calls of the methods for TLVs.
- PacketWriter.Buffer.Flush: post-processors, their preallocated room and the finish callbacks are not modelled.
- PacketWriter.Buffer.AddMessage: that the message fits is a precondition; the test in the code compares with what is set where the copy uses what is allocated.
- Timer.Scheduler.Walk: the clock stands still during a walk and is moved between walks, the 64-bit times do not overflow, and the limit on slow callbacks, which only logs, is absent.
- Subsystem.Registry.Init: loading a library and the outcome of a callback are fixed booleans of a plugin; the early configuration and the extraction of names from paths are not modelled.
- DuplicateSet.Entry.Test: the validity timer is an event, not a time.
- Layer2.Database.RemoveOrigin: listeners of object events, the last-seen times, next hops and link ids of neighbors, and the interface listener are not modelled; originators are not NULL.
- Layer2.Database.AddNet: interface names are taken to fit their field, and to be folded to one case.
- Layer2.Database.EditNet: an object is named by its network, key and address, so what happens to a pointer that is kept after its object has been freed is not covered.
- ConfigDelta.Handler.HandleSection: names are folded to one case, and validation and conversion of values are absent.
- Codes.EncodeTime: the vectors of time values of RFC 5497 are not modelled, only single codes.
- Bitstream.Writer.Write: buffers of more than 2^29 bytes, where the 32-bit positions wrap around, are excluded; copying whole buffers, which does not advance the position, is not modelled.
- Isonumber.ToS64: as for Isonumber.ToU64, behind a sign.
- Isonumber.ToU64: texts with a sign, leading blanks or more fractional digits than the scaling has are parsed by the model, but nothing is claimed about them; a text with 20 or more fractional digits is excluded.
- oonf_layer2_net_get_best_neighbor_match, netaddr parsing and printing, and the schema validators.
- Message forwarding, which copies a received message with its hop fields changed.
- Sockets, HTTP, telnet, the viewer, logging, the command line and the class allocator: plumbing around system calls.
