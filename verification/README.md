# A model of the network code and the game server, with proofs

The repository is a game whose client and server talk over ENet, a small reliable-UDP library that it carries along.
This project models the parts of it that are hardest to get right and proves what they are for. Methods over classes
and arrays follow the source step by step; each is proved against functions on values, and the theorems are about
those.

**Compression** (`enet/compress.c`). An adaptive order-2 context model in search trees threaded through one array of
4096 symbols, over a carry-less 32-bit range coder. `ArithmeticCoder` is the range coder; `ContextModel` the
statistical model as plain frequencies; `SymbolTree`, `SymbolWalk` and `SymbolHeap` show how the array holds it;
`RangeCoder` has the two algorithms; `RoundTrip` the result. Encoder and decoder refine the same abstract model, so
that the different order in which they allocate symbols does not matter. `LearnedContexts` says what that model holds in
terms of the data alone, and `KnownStreams` what is written for it.

**Transport** (`enet/protocol.c`, `enet/peer.c`, `enet/list.c`). `SequenceWindows` relates the 16-bit arithmetic to
unbounded numbers. `SendQueue`, `SendState`, `SendSteps`, `Sender` and `Sending` are the sending side: the queues, the
steps they take, the loops that take them, timeouts and acknowledgements, and the cutting of packets into commands.
`SendGate` says when a command must wait, `SendTimes` how long answers are waited for and what the throttle drops.
`Messages`, `Inbox`, `Arrivals` and `Receiver` are the receiving side of a reliable channel: the packets, what the code
does on wire numbers and what that means in true ones, and the loops that do it. `ReliableChannel` puts both ends
together over a network that loses, repeats and reorders, and `WireRuns` does so with the receiver as the code is.
`LongPackets` and `DeliveryRuns` say which packets can get through at all, `OldPieces` and `LostPackets` which put others
at risk. `DispatchScan`, `UnreliableOrder` and `UnreliableReceiver` are the unreliable packets; `Unsequenced` the
replay window; `LinkedList` the circular lists on pointers; `PeerStates` the connection states, what the host counts
about them and what the application is told.

**Host** (`enet/host.c`, `enet/packet.c`). `Bandwidth` is the water-filling allocator, `Checksum` the CRC.

**Game server.** `WorldState` and `Broadcast` tell every client about every other (`fpsgame/server.cpp`), and
`ReceivedState` says what a client reads of it; `Bots` shares the bots out (`fpsgame/aiman.h`); `WireCodec` is the codec
of messages and `WireFormat` their bytes (`engine/server.cpp`); `AliasArguments`,
`Quoting` and `QuotedLists` are the argument stacks and the quoting of the script engine (`engine/command.cpp`).

`Machine` and `Sums` hold integer widths and sums.

## Where the code does not do what one would expect

Each of these is stated with the exact condition under which the code does.

- The throttle is meant to drop unreliable commands, but drops every directly following command that carries the same
  two sequence numbers. An unsequenced command carries (0, 0), and so does every 65536th reliable command of a
  channel: then a reliable command is dropped without ever having been sent (`Sender.ReliableCommandDropped`,
  `Sending.ReliableAfterUnsequenced`, `Sender.DropsOnlyUnreliable`). The counts of the sending side are therefore kept
  on condition that no reliable command directly follows an unreliable one with its numbers.
- A packet may be too long ever to be delivered, and the channel then stands still, although the sender took it.
  Numbers seven windows past the last packet in order are not acknowledged, so the window after them is never opened,
  and all that lies in that window must be in transit at once. A packet gets through if and only if it, and every one
  before it, ends less than eight windows past the number before it and has no more bytes in the seventh than may be in
  transit (`DeliveryRuns.DeliverableExactly`); with `w` the channel's last number modulo 4096 that is fewer than
  `32768 - w` pieces, and all bytes from piece `28671 - w` on within the window for data. Up to 24576 pieces always do,
  as does everything with the default transmission unit and size limit; ENet allows 1048576 pieces.
- An acknowledged packet may be lost: the sender is done with it, and the receiver waits for it. The receiver judges a piece by the first number
  of its packet, which may be more than 9 windows old while the piece itself is less than 7 windows old and, its
  acknowledgement lost, sent again. The packet is then taken for a new one and stays in the queue, incomplete; 65536
  numbers after its first one the packet that carries that number on the wire is taken for a duplicate. A packet can do
  this if and only if it reaches four windows past its first number: `(last + 1) % 4096 + pieces - 1 >= 16384`, with
  `last` the channel's last number (`OldPieces.MistakenExactly`, `LostPackets.LosesExactly`). Up to 12289 pieces never
  do; with the default transmission unit and size limit the longest packets, of 24457 pieces, do
  (`LostPackets.DefaultsLose`).
- The bandwidth of a host or peer times the milliseconds since the last pass is taken on 32 bits; from 4294968 bytes a
  second on, the usual second makes it wrap around (`Bandwidth.AllowanceExact`, `Bandwidth.AllowanceWraps`).
- When a peer is limited to what it can receive, the allocator takes that off the data still to be shared out for, and not the
  data the peer has. The others are held back more than the bandwidth requires (`Bandwidth.HeldBack`,
  `Bandwidth.HeldBackWithoutNeed`); their throttle is the largest for what is counted as left, and that is too much as soon
  as anybody is limited (`Bandwidth.BandwidthHost.BandwidthThrottle`).
- Text with a carriage return is not read back from its quoted form (`Quoting.QuotedReadBack`), and the list parser
  does not come past an `@` (`QuotedLists.NextAdvances`).
- Incomplete unreliable packets are lost without need: of those that follow the current reliable number a pass of the
  dispatcher keeps only the one just queued and the last two, if nothing complete comes after them; of three the first
  is lost (`UnreliableReceiver.SurvivesExactly`, `UnreliableReceiver.FirstOfThreeLost`).

## What the theorems about channels assume

The network may lose, repeat and reorder commands, but not keep them for ever. `WireRuns` lets any command arrive that is
less than 7 windows old: as old as it can be while it waits to be acknowledged. `ReliableChannel` allows more: only a
command of a packet that has been put in order already must be that young, or else its packet's first number at most 9
windows old. An acknowledgement comes only while fewer than 2^16 numbers have been sent since. Under these assumptions
delivery is proved for packets that reach no more than 3 windows past their first number, and for others in the runs in
which none of them is taken for a new one; `LostPackets.LosesExactly` shows that they need the condition. All this
supposes that the throttle drops no reliable command. `UnreliableReceiver` assumes of an unreliable command that the
reliable number it follows is at most 9 windows old, and `Unsequenced` 32768 groups; sequence numbers of 16 bits tell no
more apart (`ReliableChannel.TooOldLetIn`).

## Model

| member | source | states |
|---|---|---|
| RoundTrip.CompressThenDecompress | enet/compress.c:246-627 | Whatever one coder compresses, however it is split into buffers, another decompresses to exactly the same bytes, given room; the compressor gives up only on no input or no room. |
| RoundTrip.CompressedInjective | enet/compress.c:246-342 | No two byte strings have the same compressed form. |
| RoundTrip.SameStream | enet/compress.c:520-624 | A stream has one reading: two strings whose slots both explain it from the same state on are equal, end included. |
| RoundTrip.SameByte | enet/compress.c:529-596 | Two readings of a stream in the same contexts agree on whether a byte follows, on the byte, and on where its slots end. |
| RangeCoder.RangeCoder.Compress | enet/compress.c:246-342 | Writes exactly the compressed form of the concatenated buffers, across pool resets and rescales, or 0 if it does not fit; `LearnedContexts.SaysData` says what that form is in terms of the data, and `KnownStreams` in bytes. |
| LearnedContexts.ContextsHold | enet/compress.c:286-336 | After any data the history is the last two bytes of what has come since the pool was last emptied; in a context that has not been halved every byte counts 2 for each position at which the context learned it, 3 in the root, and there are 5 escapes for each different byte, 1 in the root. |
| LearnedContexts.LearnedWhere | enet/compress.c:286-318 | A context of two bytes learns every byte behind them; one of fewer learns it at the start of the data, or if the string one byte longer stands there for the first time. |
| LearnedContexts.TouchedCounted | enet/compress.c:311-329 | Counters are exact as long as no byte was learned more than 126 times, 84 in the root, and the total is at most 65280; the first byte beyond that halves them all, upwards. |
| LearnedContexts.AfterRemembers | enet/compress.c:148-157 | The pool is emptied exactly when 4093 different strings of up to three bytes have occurred; each of them takes one symbol. |
| LearnedContexts.ShortRemembered | enet/compress.c:148-157 | Nothing is forgotten of data up to 1364 bytes long. |
| LearnedContexts.SharesCounted | enet/compress.c:302-326 | The shares of a byte and of an escape, in numbers of times bytes were learned. |
| LearnedContexts.SaysData | enet/compress.c:286-329 | A byte is coded in the longest of its contexts that it has followed before, or else in the root, with an escape in every longer one that any byte has followed; the compressed form is those shares, coded. |
| LearnedContexts.FourAlike | enet/compress.c:286-329 | Any byte, four times over, is coded in the shares 1 + v of 257, 1 + v to 5 + v of 260, and twice 5 to 7 of 7. |
| KnownStreams.PutsNothing | enet/compress.c:121-137 | A share is coded in so many parts of the range, the range divided by the total; nothing is put out while the top bytes of both ends differ and 65536 is left. |
| KnownStreams.PutsTop | enet/compress.c:121-137 | Where the top bytes agree they are put out, and the rest moves up by a byte. |
| KnownStreams.PutsCut | enet/compress.c:121-137 | Where they differ with less than 65536 left, the range is first cut off at the next multiple of 65536. |
| KnownStreams.FourLetters | enet/compress.c:246-342 | The letter a, four times over, is compressed to 62 02 19 99. |
| RangeCoder.RangeCoder.Decompress | enet/compress.c:498-627 | Given a compressed form, gives back the bytes and stops behind the last one though no end is marked; 0 if there is no room. |
| RangeCoder.RangeCoder.EncodeByte | enet/compress.c:286-329 | Codes one byte by the slots of its contexts and learns it in each context that did not know it, linking the new symbols. |
| RangeCoder.RangeCoder.DecodeByte | enet/compress.c:529-615 | Reads the byte the encoder coded, or the end, and ends with the contexts the encoder has, though it allocates in another order. |
| RangeCoder.RangeCoder.DecodeBottom | enet/compress.c:529-596 | From the longest context down, skips those that cannot code, takes escapes, and stops at the byte coded or at the root's escape exactly when no byte is left. |
| RangeCoder.RangeCoder.DecodeIn | enet/compress.c:536-567 | In one context, a byte is found exactly when the encoder found it there. |
| RangeCoder.RangeCoder.DecodeSymbol | enet/compress.c:551-566 | A position in a byte's share leads to that byte, which is counted and taken off the stream. |
| RangeCoder.RangeCoder.PatchContexts | enet/compress.c:598-615 | The contexts that escaped learn the byte after all; afterwards they are what the encoder made of them. |
| RangeCoder.RangeCoder.NextByte | enet/compress.c:529-623 | One turn of the decoder: the next byte of the data is found and learned, or the end. |
| RangeCoder.RangeCoder.NextInput | enet/compress.c:331-336 | Moves on to the next history, and empties a pool with no room for three more symbols. |
| RangeCoder.RangeCoder.Learn | enet/compress.c:293-314 | Counts a byte in one context and reports its slot as it was before: true escapes, cumulative frequency, count and total. |
| RangeCoder.RangeCoder.Finish | enet/compress.c:294-314 | Completes that step: link, escapes, total and rescaling leave the array laid out for the contexts as they now are. |
| RangeCoder.RangeCoder.Adapt | enet/compress.c:309-314 | Escapes and total follow the count, and the context is halved exactly when the limits say so. |
| RangeCoder.RangeCoder.ContextEncode | enet/compress.c:159-199 | Finds or creates the symbol of a byte and reports the frequency of the bytes below it and its own, as they were. |
| RangeCoder.RangeCoder.WalkEncode | enet/compress.c:169-198 | The same, from the root of a non-empty tree down, writing only that tree and at most one new slot. |
| RangeCoder.RangeCoder.ContextDecode | enet/compress.c:373-438 | Finds the byte in whose share a position lies, unseen bytes of the root included, and counts it as the encoder does. |
| RangeCoder.RangeCoder.WalkDecode | enet/compress.c:382-412 | The same, from the root of a non-empty tree down. |
| RangeCoder.RangeCoder.SymbolRescale | enet/compress.c:90-105 | The tree afterwards holds every count halved upwards, with true cumulative counts; the result is their sum. |
| RangeCoder.RangeCoder.ContextRescale | enet/compress.c:107-112 | A context and its total are halved, escapes included, with the root's constant share kept. |
| RangeCoder.RangeCoder.CreateRoot | enet/compress.c:82-88 | An emptied pool holds the root context alone, with one escape and a share for every byte. |
| RangeCoder.FirstByteLifts | enet/compress.c:139-146 | Something is written for every non-empty input, so that 0 tells failure. |
| SymbolHeap.UpdateLaid | enet/compress.c:293-316 | One context's update leaves every other context of the array as it was, and names, trees and parent links consistent. |
| SymbolHeap.TreesDisjoint | enet/compress.c:68-80 | The trees of different contexts have no slot in common. |
| SymbolHeap.NamedFind | enet/compress.c:159-199 | A byte that a context knows has a symbol, and searching the tree ends at it. |
| SymbolHeap.LinkLaid | enet/compress.c:319-320 | The last parent link completes the array. |
| SymbolTree.TalliesWeight | enet/compress.c:90-105 | The counts in a search tree add up to the frequencies of its byte range. |
| SymbolTree.InsertTallies | enet/compress.c:159-199 | Inserting adds to one frequency and keeps the search order. |
| SymbolTree.FindInsert | enet/compress.c:159-199 | After inserting, the byte is found at its old symbol, or at the new one if it had none. |
| SymbolTree.RescaledTallies | enet/compress.c:90-105 | Rescaling the tree halves every frequency and no byte disappears. |
| SymbolTree.HeldToPlugged | enet/compress.c:176-197 | Raising cumulative counts on the way down and finishing below amounts to inserting into the whole tree. |
| SymbolTree.RescaleTurn | enet/compress.c:94-104 | Rescaling along the right spine, left subtrees by recursion, covers the whole tree. |
| SymbolWalk.Walk.Steer | enet/compress.c:385-411 | A position in a byte's share leads the decoder down the path the encoder took, and past its end to that byte. |
| SymbolWalk.Walk.Facts | enet/compress.c:172-197 | What a node says: its count is the byte's frequency, `under` the sum of the frequencies of its left part and its own; no addition overflows 8 or 16 bits. |
| ContextModel.LearnCommutes | enet/compress.c:286-316 | Learning from the longest context down, as the encoder does, and from the last context back up, as the decoder does, end in the same contexts and symbol count. |
| ContextModel.TouchHealthy | enet/compress.c:312-314 | Learning a byte leaves room to learn another: no count passes 8 bits and no total 16. |
| ContextModel.SlotsOrdered | enet/compress.c:159-199 | The shares of different bytes do not meet and come in byte order. |
| ContextModel.SymbolSlotValid | enet/compress.c:301-304 | The share of a known byte is not empty and lies within a total of 16 bits. |
| ContextModel.PositionOrder | enet/compress.c:385-399 | A position in a byte's share compares with every node's share as the bytes compare. |
| ContextModel.EscapeSlotProper | enet/compress.c:307-308 | A context that knows a byte has a proper escape share, so encoder and decoder use the same contexts. |
| ContextModel.NextHealthy | enet/compress.c:148-157 | After every byte the model is within all limits, reset or not. |
| ContextModel.CreatedBound | enet/compress.c:148-157 | A byte creates at most one symbol for each context, so the pool of 4096 is never left. |
| ContextModel.AllSlotsValid | enet/compress.c:267-337 | Every slot ever coded is proper. |
| ContextModel.NextSlotAhead | enet/compress.c:536-567 | In every context that can code, the position read tells an escape from a symbol as the encoder meant it. |
| ArithmeticCoder.NarrowNested | enet/compress.c:121-125 | Narrowing to a slot stays inside the interval; neither the product nor the sum wraps. |
| ArithmeticCoder.ShiftedNested | enet/compress.c:126-136 | Clipping and shifting keep the interval below 2^32, so no carry reaches a byte already written. |
| ArithmeticCoder.NormaliseStep | enet/compress.c:126-136 | One turn of the loop on 32-bit words is one step of normalising, and brings its end nearer. |
| ArithmeticCoder.EncodeContains | enet/compress.c:121-146 | Whatever is still to be coded, the bytes written for it spell a number in the current interval. |
| ArithmeticCoder.ReadInSlot | enet/compress.c:352-352 | A code inside a slot reads as a position inside it. |
| ArithmeticCoder.DecodeFollows | enet/compress.c:354-371 | The reader's position lies in the slot coded, and after renormalising its window starts at the coding of the rest. |
| ArithmeticCoder.EndReadsZero | enet/compress.c:575-580 | At the flushed end every read gives position 0, an escape, and taking it keeps the reader at the end: no end marker is needed. |
| ArithmeticCoder.FlushReads | enet/compress.c:139-146 | The flushed bytes, read with zeros after them, are the register. |
| ArithmeticCoder.TopByteTest | enet/compress.c:128-129 | The exclusive-or comparison says that top bytes differ. |
| ArithmeticCoder.ClipMask | enet/compress.c:131-131 | The masked negation is the distance to the next multiple of 2^16. |
| ArithmeticCoder.RangeEncode | enet/compress.c:121-137 | What is written and what is still to be coded always make up the same stream; fails only if that does not fit. |
| ArithmeticCoder.RangeEmit | enet/compress.c:126-136 | The renormalising loop: ends with at least 16 bits of range. |
| ArithmeticCoder.RangeFlush | enet/compress.c:139-146 | Writes the bytes of the register down to its last non-zero one. |
| ArithmeticCoder.RangeSeed | enet/compress.c:344-350 | The code register starts as the first four bytes, zeros past the end. |
| ArithmeticCoder.RangeDecode | enet/compress.c:354-371 | Keeps the same interval as the writer and reads a byte where it wrote one. |
| SequenceWindows.NewNumber | enet/peer.c:837-848 | A number up to 2^16 ahead is let in exactly when less than 7 windows ahead, and left unacknowledged exactly when 7 or 8 ahead. |
| SequenceWindows.OldNumber | enet/peer.c:837-848 | A number behind is kept out exactly while it is at most 9 windows old. |
| SequenceWindows.MaskBits | enet/protocol.c:1416-1417 | The two shifts of a ten-bit mask select the window and the nine after it, going round. |
| SequenceWindows.MaskKeepsSpan | enet/protocol.c:1413-1418 | With none of those in use, nothing outstanding lies more than six windows back. |
| SequenceWindows.AheadTrue | enet/peer.c:863-870 | Going round from the last number, order on the wire is true order within 2^16. |
| SequenceWindows.WireDistinct | enet/protocol.c:206-229 | Numbers less than 2^16 apart are told apart on the wire. |
| Sender.Peer.SetupOutgoingCommand | enet/peer.c:618-679 | Numbers a new command by its kind - on its channel, for the whole peer on channel 255, or (0, 0) for an unsequenced one; unreliable number 0 for a reliable one - and queues it last: one step of the sender. |
| Sender.Peer.CheckOutgoingCommands | enet/protocol.c:1386-1565 | Every command has its fate: it stays, goes out once, or is dropped, in order; a reliable one goes out with one attempt more and the current time, and with the time to wait and its limit set if they were not and left alone if they were; an unreliable one is dropped exactly when the stepped throttle counter passes the throttle, or directly behind a dropped one with its numbers. The queues get where they are by steps of the sender; data in transit stays below the throttled window; what stays before a full datagram is reliable and behind a blocked command. |
| Sender.PassConserves | enet/protocol.c:1386-1565 | No reliable command is lost or sent twice in that pass, if none directly follows an unreliable one with its numbers. |
| Sender.NoneReliableDropped | enet/protocol.c:1489-1519 | Nor is any dropped then. |
| Sender.Peer.Turn | enet/protocol.c:1400-1557 | One turn of that loop: a chain of steps of the sender; a reliable command that stays waits, and one that leaves has the fate above. |
| Sender.Peer.Gate | enet/protocol.c:1404-1440 | A reliable command waits exactly when its window may not be opened yet, too much is in transit, or an earlier command waits for that reason. |
| Sender.Peer.Transmit | enet/protocol.c:1459-1556 | The command leaves the queue for the datagram and for its list, or is dropped by the throttle, by steps of the sender, with the times and the counter as above. |
| Sender.Peer.SendReliable | enet/protocol.c:1459-1486 | The first sending counts the command in its window and marks it used, sets the time to wait to the round-trip time and four times its variance, and the limit to `timeoutLimit` times that, on 32 bits; a later one leaves both alone. Attempts, time sent and bytes in transit follow. |
| Sender.Peer.OpenWindow | enet/protocol.c:1461-1465 | The books of the channel at a first sending. |
| SendTimes.TimesOverRuns | enet/protocol.c:1365-1476 | In every state of every run a command that has timed out k times has 2^k times the time to wait of its first sending, and still the limit of that, as long as 32 bits hold it. |
| SendTimes.LimitReached | enet/protocol.c:1351-1363 | So the time to wait reaches its limit when 2^k has come to `timeoutLimit`. |
| SendTimes.TimesTrue | enet/include/enet/time.h:10-15 | Of two times less than a day apart, difference and order on 32 bits are the true ones. |
| SendTimes.RetriesConcat | enet/protocol.c:1339-1382 | What goes back at a timeout keeps its order, and so does what stays. |
| SendTimes.RetriesOne | enet/protocol.c:1339-1382 | A command goes back, with twice the time to wait, exactly when it has waited that long. |
| SendTimes.EarliestOf | enet/protocol.c:1351-1353 | The oldest attempt noted is that of a command that ran out, or the one noted before. |
| SendTimes.EarliestLeast | enet/protocol.c:1351-1353 | And none of them is older, if all are within a day and none was made at time 0. |
| SendTimes.SendWindowIs | enet/protocol.c:1429-1431 | So many bytes may be in transit as `throttle` 32nds of the window come to, but at least one datagram. |
| SendTimes.ThrottleShare | enet/protocol.c:1491-1494 | Of any 32 unreliable packets in a row, all but `throttle + 1` are dropped. |
| SendTimes.AdvancedBySeven | enet/protocol.c:1491-1492 | The counter goes by sevens, modulo 32. |
| SendGate.HeldBackExactly | enet/protocol.c:1413-1420 | The next command of a channel is held back for its number if and only if it is the first of a window, and all 4096 numbers before it are unanswered or one of those seven windows back is. |
| Sender.Peer.PutReliable | enet/protocol.c:1400-1486 | What the gate lets through makes one sending step: nothing that must wait is ahead of it, it may open its window, and it may be in transit with the rest. |
| Sender.Peer.PutUnreliable | enet/protocol.c:1489-1534 | An unreliable command leaves, dropped with those that share its numbers exactly when the throttle says so, or sent; either way a chain of steps. |
| Sender.Peer.GatePassed | enet/protocol.c:1404-1440 | What passes the tests of the loop meets the conditions of a sending step. |
| Sender.Peer.SendUnreliable | enet/protocol.c:1489-1534 | Dropped exactly when the throttle counter, stepped by 7 modulo 32 for a first fragment, passes the throttle. |
| Sender.Peer.DropUnreliable | enet/protocol.c:1496-1519 | Removes the command and those directly after it that carry its two numbers. |
| Sender.DropRunPairs | enet/protocol.c:1496-1519 | What is dropped together shares its two numbers, and what comes next does not. |
| Sender.DropsOnlyUnreliable | enet/protocol.c:1496-1519 | The throttle never drops a reliable command, wherever it strikes, if and only if no reliable command directly follows an unreliable one with the same numbers. |
| Sender.ReliableCommandDropped | enet/protocol.c:1496-1519 | Dropping an unsequenced command takes the reliable one behind it along if and only if its number is divisible by 65536. |
| Sending.ReliableAfterUnsequenced | enet/peer.c:618-679 | It comes to that by queueing an unsequenced packet and then a reliable one: that is gone, unsent, exactly when the throttle strikes and its number is divisible by 65536, and the numbers given out no longer match those sent and queued. |
| Sender.StaysBlocked | enet/protocol.c:1404-1440 | Sending more never frees what is blocked. |
| SendSteps.OpenedFree | enet/protocol.c:1413-1418 | The first command of a window passes only when the windows it could be confused with are unused. |
| SendSteps.SendNextValid | enet/protocol.c:1386-1565 | Every step of the sender - queueing, dropping, sending through the gate, putting back, acknowledging - keeps all that is counted. |
| SendSteps.LeadsValid | enet/protocol.c:1386-1565 | So does every chain of steps. |
| SendSteps.LeadsDropped | enet/protocol.c:1496-1519 | Dropping a run of unreliable commands is a chain of steps. |
| Sender.Host.Append | enet/protocol.c:1536-1556 | Adds a command to the datagram, within its 32 commands, its buffers and the transmission unit. |
| Sender.Peer.CheckTimeouts | enet/protocol.c:1333-1384 | Gives the peer up exactly when a command ran out with the oldest unanswered attempt too long ago; else expired commands return to the front of the queue in order, with twice the time; either way by steps of the sender. |
| Sender.Peer.NoteTimeout | enet/protocol.c:1351-1363 | Notes the oldest unanswered attempt and decides whether that is too long ago. |
| Sender.Peer.PutBack | enet/protocol.c:1365-1380 | One expired command goes back with twice the time to wait, and its bytes are no longer in transit: one step of the sender. |
| Sender.Peer.RemoveSentReliableCommand | enet/protocol.c:196-283 | An acknowledgement takes away the command it is for, in flight or waiting to be sent again, and its share of the window and of the bytes in transit - one step of the sender; or nothing if there is none. |
| Sender.Peer.FindSent | enet/protocol.c:204-234 | Giving up at the first command never sent misses nothing: found exactly when there is one. |
| SendState.InitialValid | enet/peer.c:308-342 | Fresh queues satisfy all of it. |
| SendState.AddValid | enet/peer.c:633-640 | Queueing keeps the invariant: numbers given out are consecutive, and those not yet sent are exactly the last ones. |
| SendState.SendFirstValid | enet/protocol.c:1459-1486 | A first sending keeps every window count equal to the number of unacknowledged commands of that window, used bits telling which are positive, and the outstanding span within 7 windows. |
| SendState.SendAgainValid | enet/protocol.c:1465-1486 | So does sending again. |
| SendState.RequeueValid | enet/protocol.c:1365-1372 | So does a timeout; commands to be sent again stay before those never sent, and bytes in transit are those of the list in flight. |
| SendState.AckValid | enet/protocol.c:240-278 | So does an acknowledgement. |
| SendState.SpanKept | enet/protocol.c:1413-1418 | Sending the next number keeps what is outstanding within 7 windows. |
| Sending.Send | enet/peer.c:99-214 | Succeeds exactly for a connected peer and within the limits; queues one command for each piece, with consecutive reliable numbers or one shared unreliable number, each describing its bytes. |
| Sending.Layout | enet/peer.c:142-177 | The offsets and lengths of the pieces. |
| Sending.SendPieces | enet/peer.c:181-186 | Numbers and queues the pieces in order. |
| Sending.SendWhole | enet/peer.c:191-214 | Numbers and queues a packet that fits into one command. |
| Messages.CountQuotient | enet/peer.c:117-117 | The number of pieces is the quotient the code computes. |
| Messages.PieceOf | enet/peer.c:142-177 | Every byte travels in some piece. |
| Messages.PiecesApart | enet/peer.c:142-177 | Pieces do not overlap, and all but the last have full length. |
| Messages.PieceInside | enet/peer.c:142-177 | Every piece lies in the packet. |
| Inbox.Reassembled | enet/protocol.c:609-629 | `fragmentsRemaining` is 0 exactly when all pieces have arrived, and then the packet is the one sent, byte for byte. |
| Inbox.StoreAssembles | enet/protocol.c:609-629 | A piece that had not arrived is put in its place, leaving all others as they were. |
| Inbox.ClearOne | enet/protocol.c:611-613 | Setting a clear bit takes one from the count of clear bits. |
| Inbox.QueuedConsistent | enet/peer.c:850-971 | A new packet goes where its number belongs. |
| Inbox.StoredConsistent | enet/protocol.c:609-629 | A stored piece keeps the queue and the set of accepted numbers true. |
| Inbox.InOrderConsistent | enet/peer.c:784-820 | Putting packets in order keeps them an exact prefix of those sent. |
| Inbox.NextByWire | enet/peer.c:794-796 | The comparison on the wire finds out exactly whether a packet comes next. |
| Inbox.PlaceOf | enet/peer.c:857-879 | The place by wire numbers is the place by true order. |
| Inbox.SamePacket | enet/peer.c:872-878 | The same wire number in the queue means the same packet. |
| Inbox.NextMissing | enet/peer.c:784-820 | While the dispatcher is stuck, some piece of the next packet has not been accepted. |
| Receiver.IncomingChannel.DispatchReliable | enet/peer.c:784-820 | Puts in order what comes next and is complete, as `Arrivals.PutInOrder` says. |
| Receiver.IncomingChannel.FindReliable | enet/peer.c:857-879 | Searching from the back finds the number or its place, as `Arrivals.Search` says. |
| Receiver.IncomingChannel.QueueIncoming | enet/peer.c:823-1001 | Queues, discards or refuses a packet, as `Arrivals.Queueing` says; its length is counted when queued. |
| Receiver.IncomingChannel.HandleSendFragment | enet/protocol.c:525-632 | Handles any piece, however old, as `Arrivals.HandlingFragment` says. |
| Receiver.IncomingChannel.PacketOf | enet/protocol.c:569-607 | Finds the packet that a piece belongs to in the queue, or queues it if there is room. |
| Receiver.IncomingChannel.HandleSendReliable | enet/protocol.c:435-455 | The same for a packet in one command. |
| Receiver.IncomingChannel.Store | enet/protocol.c:609-629 | Puts a piece in its place, once, as `Arrivals.Storing` says. |
| Receiver.IncomingChannel.QueueAcknowledgement | enet/peer.c:586-616 | Acknowledged unless the number lies 7 or 8 windows ahead. |
| Receiver.IncomingChannel.Arrive | enet/protocol.c:1130-1203 | Any command arrives: handled as `Arrivals.Handling` says, and acknowledged exactly when not refused nor suppressed; one that comes in time is accepted exactly when neither old nor too far ahead nor refused. |
| Receiver.IncomingChannel.Receive | enet/peer.c:221-247 | The application takes the packets in the order they were sent, each once, and their bytes off the count of those waiting, which stays exact. |
| Arrivals.HandlingTrue | enet/protocol.c:525-632 | What the code makes of a command that comes in time, in true numbers: refused exactly for want of room or size, accepted unless its packet is old or too far ahead, acknowledged unless suppressed. |
| Arrivals.FragmentTrue | enet/protocol.c:525-632 | That for a piece. |
| Arrivals.SingleTrue | enet/protocol.c:435-455 | That for a packet in one command. |
| Arrivals.QueueingTrue | enet/peer.c:823-1001 | Queued exactly when new, within 7 windows and with room; discarded or refused otherwise, without a trace. |
| Arrivals.StoringTrue | enet/protocol.c:609-629 | A piece stored is accepted; with the last one the packet is put in order. |
| Arrivals.PutInOrderTrue | enet/peer.c:784-820 | Put in order is everything that comes next and is complete, and nothing else. |
| Arrivals.SearchTrue | enet/peer.c:857-879 | The search on wire numbers finds the packet, or its place in true order. |
| Arrivals.SearchPlace | enet/peer.c:857-879 | Searching from the back, going round from the last number, finds the number or its place. |
| Arrivals.TestsTruly | enet/peer.c:837-856 | In time, the window comparison lets in exactly what is neither delivered nor 7 windows ahead. |
| Arrivals.StoringSettled | enet/protocol.c:609-629 | Storing a piece keeps `fragmentsRemaining` equal to the pieces missing, and leaves nothing that could be put in order. |
| Arrivals.QueueingWaiting | enet/peer.c:964-969 | A packet queued adds its length to the bytes waiting. |
| Arrivals.PutInOrderWaiting | enet/peer.c:784-820 | Putting packets in order does not change them. |
| ReliableChannel.ReliableDelivery | enet/peer.c:784-880 | In every state of every run over a network that loses, repeats and reorders, as long as the throttle drops no reliable command and no packet reaches four windows past its first number or comes again that late: what is in order is an exact prefix of what was sent, every number acknowledged was accepted, and what is outstanding spans at most 7 windows. |
| ReliableChannel.RunInvariant | enet/protocol.c:196-283 | The joint invariant of both ends holds throughout every run. |
| ReliableChannel.NextInvariant | enet/protocol.c:1404-1486 | Every step of either end or of the network keeps it. |
| ReliableChannel.FullWindowBlocks | enet/protocol.c:1413-1415 | As long as none of the 4096 numbers of a window is acknowledged, the next window is not opened. |
| ReliableChannel.SendStaysNear | enet/protocol.c:1410-1420 | So no number 8 windows past the last packet in order is ever sent. |
| ReliableChannel.ArrivalAckedWell | enet/peer.c:586-616 | What is acknowledged was accepted, and lies less than 7 windows past the last packet in order. |
| ReliableChannel.LagBounded | enet/protocol.c:1413-1418 | The receiver is never 8 windows behind the sender. |
| ReliableChannel.ArrivesTimely | enet/peer.c:837-848 | What arrives can be told apart from everything else on the channel. |
| ReliableChannel.AckHits | enet/protocol.c:206-234 | An acknowledgement less than 2^16 numbers old takes away exactly the command it is for. |
| ReliableChannel.AllDelivered | enet/peer.c:784-820 | Once everything is sent and acknowledged, everything has been put in order. |
| ReliableChannel.SendsAsExpected | enet/peer.c:111-189 | The commands queued for a packet take the numbers, and describe the bytes, that the receiver expects of it. |
| ReliableChannel.AckedUnseen | enet/peer.c:600-601 | A packet in one piece would be acknowledged though not let in if and only if it is more than 8 windows ahead: where the sender never is. |
| ReliableChannel.TooOldLetIn | enet/peer.c:837-848 | A number put in order already passes for a new one if and only if it is more than 9 windows old. |
| ReliableChannel.NarrowTold | enet/protocol.c:548-559 | A command less than 7 windows old, of a packet that reaches no more than 3 windows past its first number, is told from a new one. |
| ReliableChannel.AdvanceBounded | enet/peer.c:784-820 | An arrival moves the last reliable number by at most 7 windows, so the unreliable queue can keep up. |
| WireRuns.NarrowDelivered | enet/peer.c:784-1001 | With the receiver as the code is, on wire numbers, and any command less than 7 windows old arriving: if no packet reaches four windows past its first number, what was put in order is always an exact prefix of what was sent, and all of it once everything is sent and acknowledged. |
| WireRuns.ActShows | enet/protocol.c:525-632 | Every step of that channel is a step of `ReliableChannel`. |
| LostPackets.LosesExactly | enet/protocol.c:548-607 | On a channel of such packets one more can make a run end with everything acknowledged and not everything delivered if and only if it reaches four windows past its first number. |
| LostPackets.DefaultsLose | enet/host.c:85-103 | With the defaults for the transmission unit and the size of packets, the longest packet can. |
| LostPackets.PieceQueuesBogus | enet/protocol.c:569-629 | A piece of a packet that passes for a new one is queued as an incomplete packet. |
| LostPackets.EmptyPasses | enet/peer.c:857-879 | Packets before the number it has are put in order past it. |
| LostPackets.EmptyLost | enet/peer.c:872-878 | The packet that has its number is taken for a duplicate: handled, acknowledged and gone. |
| OldPieces.MistakenExactly | enet/protocol.c:548-559 | A piece that waits to be acknowledged, less than 7 windows old, of a packet already in order, can come to pass for a piece of a new packet if and only if its packet reaches four windows past its first number. |
| OldPieces.NarrowByWire | enet/protocol.c:548-559 | What the sender can tell of that from the channel's last number and the number of pieces. |
| OldPieces.DefaultsReachFar | enet/host.c:85-103 | The longest packets do with the default transmission unit and size limit. |
| OldPieces.ShortNever | enet/peer.c:117-126 | Packets of up to 12289 pieces never do. |
| OldPieces.OneWaitingWraps | enet/protocol.c:1410-1420 | One command outstanding, one to six windows back, keeps no window closed. |
| DeliveryRuns.DeliverableExactly | enet/protocol.c:1410-1435 | A packet can be put in order in some run if and only if it and all before it end less than 8 windows past the number before them and have no more bytes in the seventh than may be in transit. |
| LongPackets.NeverInOrder | enet/peer.c:600-601 | A packet that does not is never put in order, in any run in which none is taken for a new one: the channel delivers nothing from it on. |
| LongPackets.SendFits | enet/protocol.c:1427-1433 | When a number seven windows ahead is first sent, all before it in that window are in transit too. |
| LongPackets.ShortFits | enet/peer.c:117-126 | Packets of up to 24576 pieces always can be. |
| LongPackets.DefaultsFit | enet/host.c:85-103 | So can every packet with the defaults for the transmission unit and the size of packets. |
| LongPackets.SmallestMtuStalls | enet/protocol.c:372-373 | The longest packets allowed never can with the smallest transmission unit, though the sender takes them. |
| DeliveryRuns.OnePiece | enet/protocol.c:1459-1486 | A piece of a packet that fits can be queued, sent, delivered and, unless it lies seven windows ahead, acknowledged. |
| DeliveryRuns.DrainOne | enet/peer.c:586-616 | What could not be acknowledged then is acknowledged when it comes again after the packet is in order. |
| DeliveryRuns.PieceArrives | enet/protocol.c:525-632 | What the receiver makes of the next piece of the next packet. |
| DeliveryRuns.CodeTakes | enet/protocol.c:525-632 | And that its code makes that of it, byte for byte. |
| UnreliableReceiver.UnreliableChannel.Dispatch | enet/peer.c:700-781 | The three cursors and the splices amount to a plain filter: deliver what is current and complete, keep what must wait, drop the rest. |
| UnreliableReceiver.UnreliableChannel.Turn | enet/peer.c:706-766 | One turn of the scan. |
| UnreliableReceiver.UnreliableChannel.RemoveBefore | enet/peer.c:270-299 | Removes the entries before a place, sparing the one just queued. |
| UnreliableReceiver.UnreliableChannel.Pass | enet/peer.c:700-781 | Against true numbers: what was delivered, now and before, is complete and strictly increasing in (reliable, unreliable) number, and nothing deliverable or stale is left. |
| UnreliableReceiver.UnreliableChannel.QueueUnreliable | enet/peer.c:882-985 | Queued exactly when not overtaken, not a duplicate and with room; a complete current packet goes out at once. |
| UnreliableReceiver.UnreliableChannel.FindUnreliable | enet/peer.c:890-921 | Searching from the back finds the pair of numbers or its place. |
| UnreliableReceiver.UnreliableChannel.HandleFragment | enet/protocol.c:634-750 | The piece, bytes and all, is in the queue afterwards, or completed the packet, which went out alone; overtaken packets are ignored, and malformed pieces or such as do not agree with their packet refused. |
| UnreliableReceiver.UnreliableChannel.StorePiece | enet/protocol.c:728-746 | The piece is put in its place and marked once; the last one starts a pass. |
| UnreliableReceiver.DeliveredWhole | enet/protocol.c:728-746 | Every sequenced packet delivered is, byte for byte, the one sent under its numbers. |
| UnreliableReceiver.PieceBuilt | enet/protocol.c:728-746 | A piece stored keeps what has arrived in its place. |
| UnreliableReceiver.UnreliableChannel.QueueUnsequenced | enet/peer.c:924-982 | An unsequenced packet goes to the front and out at once. |
| UnreliableReceiver.UnreliableChannel.Advance | enet/peer.c:810-819 | A new reliable number restarts the unreliable numbering and passes over the queue. |
| UnreliableReceiver.PassDelivers | enet/peer.c:710-724 | What was delivered before and what a pass delivers make one strictly increasing run of complete packets. |
| UnreliableReceiver.TakesComplete | enet/peer.c:710-724 | A pass delivers every complete packet that follows the current reliable number. |
| UnreliableReceiver.SparedStays | enet/peer.c:270-299 | The entry just queued survives the pass, unless it was delivered. |
| UnreliableReceiver.SurvivesExactly | enet/peer.c:700-781 | An incomplete packet that follows the current reliable number outlives a pass if and only if it is the one just queued or one of the last two, all from it on being incomplete. |
| UnreliableReceiver.FirstOfThreeLost | enet/peer.c:722-737 | Of three such packets the first is lost when the third is queued. |
| UnreliableReceiver.PieceLands | enet/protocol.c:728-746 | A piece lands in the queue or completes its packet. |
| UnreliableReceiver.LetInUnreliable | enet/peer.c:837-888 | the conditions on the wire let in exactly what is neither overtaken nor 7 windows ahead. |
| UnreliableOrder.PassValid | enet/peer.c:700-781 | A pass leaves the queue in order with nothing deliverable and nothing stale. |
| UnreliableOrder.DeliveredRising | enet/peer.c:710-724 | What one pass delivers has rising unreliable numbers, above the last. |
| UnreliableOrder.KindByNumber | enet/peer.c:710-749 | The comparisons on the wire sort an entry by its true number. |
| DispatchScan.ScanPast | enet/peer.c:726-757 | Splicing a run away and moving the drop cursor keeps the cursors' meaning. |
| DispatchScan.ScanEnd | enet/peer.c:759-775 | At the end of the scan delivered, kept and spared entries are those of the filter. |
| LinkedList.Insert | enet/list.c:20-32 | On pointers: the ring with the node before the position. |
| LinkedList.Remove | enet/list.c:34-41 | The ring without the node. |
| LinkedList.Move | enet/list.c:43-59 | A run of nodes leaves one ring and joins another, in order. |
| LinkedList.CutOut | enet/list.c:48-49 | Linking past a run leaves a ring of the others. |
| LinkedList.SplicedIn | enet/list.c:51-56 | Linking to its ends makes the run part of the other ring. |
| LinkedList.Clear | enet/list.c:13-18 | A ring of the head alone. |
| Unsequenced.UnsequencedWindow.HandleSendUnsequenced | enet/protocol.c:457-501 | For true group numbers within 32768 of the window, a group is queued exactly when not before the window, not queued already and with room; a group not before it moves the base to the multiple of 1024 at or below it, and no further. |
| Unsequenced.AheadTrue | enet/protocol.c:474-481 | The comparison on 16 bits in true numbers. |
| Unsequenced.Judge | enet/protocol.c:474-494 | Index, base and moving of the window in true numbers. |
| PeerStates.PeerHost.ChangeState | enet/protocol.c:35-44 | Changes the state and keeps `connectedPeers` and `bandwidthLimitedPeers` equal to the counts they stand for. |
| PeerStates.PeerHost.OnConnect | enet/peer.c:344-354 | Counts a peer about to be online. |
| PeerStates.PeerHost.OnDisconnect | enet/peer.c:356-366 | Stops counting it. |
| PeerStates.PeerHost.Reset | enet/peer.c:373-428 | A fresh disconnected peer, no longer counted. |
| PeerStates.PeerHost.HostConnect | enet/host.c:172-252 | Takes the first free peer into connecting, or none if all are taken. |
| PeerStates.PeerHost.HandleConnect | enet/protocol.c:285-433 | Takes the first free peer into acknowledging, with the other side's limit, unless the number of channels is out of bounds, the same connection is there already, its host has too many, or no peer is free. |
| PeerStates.PeerHost.NotifyConnect | enet/protocol.c:119-134 | Online with an event at once, or pending. |
| PeerStates.PeerHost.NotifyDisconnect | enet/protocol.c:136-159 | Reset with an event if the peer was known, or a zombie until asked. |
| PeerStates.PeerHost.Disconnect | enet/peer.c:529-564 | Which states do nothing, which go to disconnecting, and which reset. |
| PeerStates.PeerHost.DisconnectNow | enet/peer.c:498-521 | Reset at once. |
| PeerStates.PeerHost.DisconnectWhenSent | enet/peer.c:572-584 | An online peer with commands waiting stays counted until they are sent; any other is disconnected at once. |
| PeerStates.PeerHost.HandleVerifyConnect | enet/protocol.c:936-996 | Online, or a zombie if what was agreed does not match, and the event that it brings. |
| PeerStates.PeerHost.HandleBandwidthLimit | enet/protocol.c:761-793 | A limit that comes or goes is counted. |
| PeerStates.PeerHost.HandleDisconnect | enet/protocol.c:808-835 | What a request to disconnect makes of every state; never online afterwards. |
| PeerStates.PeerHost.HandleAcknowledge | enet/protocol.c:838-931 | What an acknowledgement makes of every state, and the event it brings. |
| PeerStates.PeerHost.AcknowledgedDisconnect | enet/protocol.c:1320-1323 | A zombie once the acknowledgement is sent. |
| PeerStates.PeerHost.Dispatch | enet/protocol.c:59-117 | Pending peers come online with an event, zombies are reset with one. |
| PeerStates.StandingKept | enet/protocol.c:59-159 | No peer joins that is there, none leaves that was neither there nor asked for, and none is lost without an event unless the application itself gives it up. |
| PeerStates.StandingThroughout | enet/protocol.c:59-159 | So in every state of every run of a peer, as often as it is used. |
| PeerStates.ZombieOnceAcknowledged | enet/protocol.c:808-835 | A peer whose request is to be acknowledged becomes a zombie only once the acknowledgement is sent, unless it runs out of time or is given up at once; otherwise it is one at once. |
| PeerStates.CountedChange | enet/peer.c:344-366 | Changing one peer changes the counts by what it counted before and after. |
| PeerStates.CountersTell | enet/host.c:331-336 | The counters are 0 exactly when nobody is online, or nobody online has a limit. |
| Bandwidth.BandwidthHost.BandwidthThrottle | enet/host.c:326-489 | Within one pass every online peer gets the largest limit with which it can receive its data, or 1 if that is 0, or else the common throttle, and its throttle ends as the smaller of what it was and that. The common throttle is the largest, up to 32, for what is left of bandwidth and data when what the limited peers can receive is taken off both; all together stay within the bandwidth but for peers raised to 1. The incoming limit is the largest part that the peers not settled can have, and the limits sent out add up to at most the incoming bandwidth. |
| Bandwidth.BandwidthHost.LimitPeers | enet/host.c:364-407 | Rounds end, with every peer left able to receive its share; nothing underflows. |
| Bandwidth.BandwidthHost.LimitRound | enet/host.c:373-406 | One round limits exactly those whose share is more than they can receive, each to the largest limit it can receive. |
| Bandwidth.BandwidthHost.LimitPeer | enet/host.c:388-400 | One peer gets the largest limit it can receive, or 1, and its throttle ends as the smaller of what it was and that. |
| Bandwidth.OwnLimit | enet/host.c:388-392 | The quotient the code computes is that limit, and 0 exactly when 32 times what can be received is less than the data. |
| Bandwidth.ThrottleLargest | enet/host.c:411-414 | The common throttle is the largest for what is left. |
| Bandwidth.HeldBack | enet/host.c:404-405 | As the data of a limited peer are taken off only up to what it can receive, the others' throttle is never higher than the bandwidth allows. |
| Bandwidth.HeldBackWithoutNeed | enet/host.c:404-405 | And it may be lower: a peer with 990 bytes to receive gets half of them where all would do. |
| Bandwidth.BandwidthHost.ShareOutgoing | enet/host.c:348-432 | The outgoing half. |
| Bandwidth.BandwidthHost.SharePeers | enet/host.c:416-431 | The peers left get the common throttle. |
| Bandwidth.BandwidthHost.TotalData | enet/host.c:353-361 | The data of all online peers. |
| Bandwidth.BandwidthHost.LimitIncoming | enet/host.c:438-468 | The incoming half: who keeps what it has - those that send without limit or below the limit - and that the others get the largest equal part of the rest. |
| Bandwidth.BandwidthHost.SettleRound | enet/host.c:447-468 | One round settles exactly those below their part. |
| Bandwidth.BandwidthHost.AnnounceLimits | enet/host.c:470-487 | One limit to every online peer. |
| Bandwidth.LimitOne | enet/host.c:384-405 | Limiting one peer leaves bandwidth and data for the others, with no underflow or division by zero. |
| Bandwidth.SharedOut | enet/host.c:409-432 | The common throttle keeps the total within the bandwidth. |
| Bandwidth.AllSettled | enet/host.c:445-468 | The limits add up to at most the bandwidth. |
| Bandwidth.SettleOne | enet/host.c:458-466 | Settling one peer never takes more than is left. |
| Bandwidth.AllowanceExact | enet/host.c:351-351 | The 32-bit product gives the bytes of an interval if and only if it does not wrap around. |
| Bandwidth.AllowanceWraps | enet/host.c:351-351 | It does for 4294968 bytes a second after a second: the allowance is 0. |
| Checksum.EnetCrc32 | enet/packet.c:142-163 | The table-driven checksum of any list of buffers is the bit-serial CRC-32 of section 8 of RFC 1952 of their concatenation, byte-swapped. |
| Checksum.InitializeCrc32 | enet/packet.c:118-140 | Every table entry is what eight bit-serial steps make of its byte. |
| Checksum.TableEntry | enet/packet.c:125-136 | The entry computed from the high end, reflected. |
| Checksum.ReflectCrc | enet/packet.c:104-116 | Reverses the lowest `bits` bits. |
| Checksum.UpdateBuffer | enet/packet.c:154-157 | The bytes of one buffer. |
| Checksum.ByteByTable | enet/packet.c:156-156 | One look-up is eight steps. |
| Checksum.ReflectedSteps | enet/packet.c:128-136 | Reflected, steps from the high end are steps from the low end. |
| Checksum.StepsSplit | enet/packet.c:156-156 | Eight steps shift the register and add what its low byte comes to. |
| Checksum.StepsLinear | enet/packet.c:128-134 | Steps are linear over exclusive or. |
| Checksum.UpdateConcat | enet/packet.c:149-160 | The split into buffers does not matter. |
| Checksum.ByteChangeDetected | enet/packet.c:142-163 | No change confined to one byte goes unnoticed. |
| Checksum.CheckValue | enet/packet.c:142-163 | The checksum of the digits 1 to 9 is 0xCBF43926 before its bytes are swapped. |
| Checksum.SwapBytes | enet/packet.c:162-162 | The bytes of the result are those of the checksum in opposite order. |
| Broadcast.EveryoneTold | fpsgame/server.cpp:1818-1931 | Over one build, the packets of a human client show every other owner's items exactly once, none of its own, whole and in order. |
| Broadcast.SegmentsRising | fpsgame/server.cpp:1824-1836 | One packet at most for each segment, in order. |
| WorldState.BuildWorldState | fpsgame/server.cpp:1889-1931 | The buffer of twice what clients have to tell suffices; positions and then messages of every human and its bots are gathered, each once; `ReceivedState` says what that is and what a receiver reads. |
| ReceivedState.EntryRead | fpsgame/server.cpp:1879-1883 | Off the bytes gathered for a client a receiver reads N_CLIENT, the client's number and the length, and is left with exactly the messages, if and only if they are shorter than 2^28 bytes; positions are sent as they are. |
| ReceivedState.AllRead | fpsgame/server.cpp:1879-1883 | Whatever items a packet has one after the other, all their messages are read, each with its client's number, in order. |
| ReceivedState.PlanTells | fpsgame/server.cpp:1911-1925 | Exactly the humans and their bots tell what they have. |
| ReceivedState.ItemsTell | fpsgame/server.cpp:1840-1889 | The items gathered are exactly those of clients with something to tell. |
| WorldState.Gather | fpsgame/server.cpp:1911-1917 | One phase: every human, then its bots, then the rest is sent. |
| WorldState.AddEntry | fpsgame/server.cpp:1840-1850 | One client's contribution, if it has one. |
| WorldState.Measure | fpsgame/server.cpp:1891-1900 | How much there is to tell. |
| WorldState.Builder.Add | fpsgame/server.cpp:1874-1887 | Gathers one item whole, sending first what would not fit with it in one datagram; the owner's part stays in one piece. |
| WorldState.Builder.Flush | fpsgame/server.cpp:1852-1872 | Doubles what was gathered and sends it round; packets sent before still show what they showed. |
| WorldState.Builder.SendOne | fpsgame/server.cpp:1826-1835 | The packet past the client's own part shows what follows that part and then what precedes it. |
| WorldState.PacketFair | fpsgame/server.cpp:1826-1831 | Nothing of its own, everything else exactly once. |
| WorldState.ReceivedOnce | fpsgame/server.cpp:1818-1887 | The same over all segments. |
| WorldState.Turned | fpsgame/server.cpp:1823-1829 | A stretch of the doubled segment is the segment turned. |
| Bots.AiManager.AddAi | fpsgame/aiman.h:107-169 | Adds exactly while fewer bots than the limit are steered; reuses the first free place; the owner is an eligible client with the fewest. |
| Bots.AiManager.DeleteAi | fpsgame/aiman.h:171-182 | The bot leaves its place and its owner's list. |
| Bots.AiManager.ShiftAi | fpsgame/aiman.h:210-217 | Out of one list and into another, and the bot names its new owner. |
| Bots.AiManager.RemoveAi | fpsgame/aiman.h:219-223 | All bots of a client go to others, each to one with the fewest, or to nobody if and only if no other client is eligible; no other bot moves. |
| Bots.AiManager.FindAiClient | fpsgame/aiman.h:95-105 | An eligible client with the fewest bots, if there is one. |
| Bots.AiManager.ReassignAi | fpsgame/aiman.h:225-244 | Moves one bot and lowers the sum of squared loads, or all eligible loads are within one. |
| Bots.AiManager.Balance | fpsgame/aiman.h:258-266 | The loop ends, eligible loads differ by at most one, and no bot is lost. |
| Bots.MovedConsistent | fpsgame/aiman.h:210-217 | A bot is in a client's list exactly when it names that client: kept by every move. |
| Bots.DroppedConsistent | fpsgame/aiman.h:171-182 | And by every removal. |
| Bots.SquaresFall | fpsgame/aiman.h:235-241 | Moving a bot between loads two or more apart lowers the sum of squares. |
| WireCodec.StreamRoundTrip | engine/server.cpp:117-216 | A prefix code: any mix of integers, compact integers of 29 bits and strings that fit is read back, and what follows is untouched. |
| WireCodec.IntRoundTrip | engine/server.cpp:119-136 | Every 32-bit integer is read back, from as many bytes as it took. |
| WireCodec.UintRoundTrip | engine/server.cpp:138-177 | So is every compact integer in [-2^28, 2^28). |
| WireCodec.UintExactly | engine/server.cpp:138-177 | Others are not: read back if and only if in that range. |
| WireCodec.StringRoundTrip | engine/server.cpp:196-216 | A string without NUL shorter than the reader's buffer is read back. |
| WireFormat.LongTextCut | engine/server.cpp:206-216 | A text that leaves no room for its closing 0 is read as its first `room - 1` characters, one more being taken off the bytes. |
| WireFormat.IntFormat | engine/server.cpp:120-125 | One byte from -126 to 127, 0x80 and two bytes for 16 bits, 0x81 and four for all others, low byte first. |
| WireFormat.UintFormat | engine/server.cpp:140-161 | As few groups of seven bits as will do, low one first, each but the last marked; four for negative numbers and from 2^21 on, the fourth a whole byte. |
| WireFormat.TextFormat | engine/server.cpp:196-201 | Characters up to 127 as they are, and a 0. |
| WireCodec.ByteBuffer.PutInt | engine/server.cpp:119-126 | Appends the bytes of the integer as far as they fit. |
| WireCodec.ByteBuffer.PutUint | engine/server.cpp:139-162 | The same for compact integers. |
| WireCodec.ByteBuffer.PutString | engine/server.cpp:196-202 | The same for strings. |
| WireCodec.ByteBuffer.GetInt | engine/server.cpp:130-136 | Reads the integer, zeros past the end, noting that. |
| WireCodec.ByteBuffer.GetUint | engine/server.cpp:166-177 | The same for compact integers. |
| WireCodec.ByteBuffer.GetString | engine/server.cpp:206-216 | The same for strings; always closed within the buffer. |
| AliasArguments.CallRestores | engine/command.cpp:1846-1871 | After an alias call with any script in it, to any depth, every argument is exactly what it was: value, stack and marks. |
| AliasArguments.ExecWithin | engine/command.cpp:391-404 | A script changes only its own call's arguments, keeping the old values under them. |
| AliasArguments.LeaveRestores | engine/command.cpp:1864-1867 | Whatever stays within a call is undone on leaving it. |
| AliasArguments.DepthsThroughout | engine/command.cpp:289-307 | At every point an argument's stack is as deep as there are calls in progress whose bit for it is set. |
| AliasArguments.EnterDepths | engine/command.cpp:1847-1855 | Entering a call keeps that true. |
| AliasArguments.WorthInCall | engine/command.cpp:1660-1739 | After n actions of its body, an argument of a call is worth what the body last assigned to it, or else what was given for it, or else nothing, whatever was called; the call owns it exactly if it was given, assigned or referred to. |
| AliasArguments.WorthThroughout | engine/command.cpp:1660-1739 | So in the middle of any script, from what the arguments were worth before it. |
| AliasArguments.Interpreter.Lookup | engine/command.cpp:1768-1769 | What a script gets for an argument: its value, or nothing if the call does not own it. |
| AliasArguments.Interpreter.CallAlias | engine/command.cpp:1846-1871 | The call leaves the identifiers and links as it found them. |
| AliasArguments.Interpreter.Execute | engine/command.cpp:1660-1670 | A script does to the identifiers what its actions say. |
| AliasArguments.Interpreter.SetArg | engine/command.cpp:391-404 | Assigns an argument the call owns, or pushes it and marks it. |
| AliasArguments.Interpreter.Touch | engine/command.cpp:1660-1670 | A reference makes the argument the call's own. |
| AliasArguments.Interpreter.Enter | engine/command.cpp:1847-1855 | Pushes the arguments given. |
| AliasArguments.Interpreter.Leave | engine/command.cpp:1864-1867 | Pops those, and by the bits whatever else the call pushed. |
| AliasArguments.Interpreter.PushArg | engine/command.cpp:289-297 | The value goes under the new one. |
| AliasArguments.Interpreter.PopArg | engine/command.cpp:299-307 | The value under it comes back. |
| Quoting.QuotedReadBack | engine/command.cpp:2085-2104 | A text is read back from its quoted form, whatever follows, if and only if it has no carriage return. |
| Quoting.CutQuoted | engine/command.cpp:752-762 | In general it is read back up to its first carriage return. |
| Quoting.UnescapeUndoes | engine/command.cpp:664-685 | Unescaping undoes escaping. |
| Quoting.EscapesFive | engine/command.cpp:2085-2103 | Line feed, tab, form feed, quote and caret are escaped, each by a caret and a character of its own, and nothing else is. |
| Quoting.QuotedPlain | engine/command.cpp:2085-2103 | A quoted text has no line feed, tab or form feed in it. |
| Quoting.ParseString | engine/command.cpp:649-662 | Where a string ends. |
| Quoting.UnescapeString | engine/command.cpp:664-685 | The unescaped text, written in place; no more than the source. |
| Quoting.CutString | engine/command.cpp:752-762 | The string at a quote, and where it leaves off. |
| Quoting.EscapeString | engine/command.cpp:2085-2104 | The quoted form. |
| QuotedLists.BlockReadBack | engine/command.cpp:2304-2337 | A text that `validateblock` accepts, in brackets of either kind and followed by anything, is read back as exactly that text. |
| QuotedLists.BlockFollows | engine/command.cpp:2311-2329 | The block parser, counting one kind of bracket, ends where the validated text does. |
| QuotedLists.ListReadBack | engine/command.cpp:2339-2344 | A list of blocks, quoted strings and plain words is taken apart into exactly those. |
| QuotedLists.WrittenListReadBack | engine/command.cpp:2339-2344 | And, strings unescaped, into the texts that were meant. |
| QuotedLists.NextAdvances | engine/command.cpp:2304-2337 | The list parser moves on with every item if and only if it does not stand at an `@`. |
| QuotedLists.ValidateBlock | engine/command.cpp:2112-2127 | Accepts exactly balanced text with closed strings, no comment and no form feed, at most 100 deep. |
| QuotedLists.ParseList | engine/command.cpp:2304-2337 | One item of a list. |
| QuotedLists.ParseBlock | engine/command.cpp:2311-2329 | Where a bracketed block ends. |
| QuotedLists.ParseWord | engine/command.cpp:764-782 | Where a word ends. |
| QuotedLists.SkipList | engine/command.cpp:2294-2302 | Past blanks and comments. |
| QuotedLists.ExplodeList | engine/command.cpp:2339-2344 | All items, or as many as asked for. |

## Left out

- RangeCoder.RangeCoder.Decompress: only on what the compressor produces; on other bytes the C code may stop early or return 0, which is not modelled.
- RangeCoder.RangeCoder.Compress: buffers after the first must not be empty; the C code reads past an empty one.
- Sender.Peer.CheckOutgoingCommands: the counts are kept on condition that no reliable command directly follows an unreliable one with its numbers, as explained above.
- LearnedContexts.ContextsHold: of a context that has been halved it is said what the first halving leaves (`LearnedContexts.TouchedCounted`); later counts go on from there by the same rules.
- SendTimes.TimesOverRuns: where doubling comes to 0 on 32 bits, after at most 32 timeouts, the next sending sets the time to wait anew; of the time after that only the single steps are stated.
- Sender.Peer.SetupOutgoingCommand: the bytes of the wire command and `outgoingDataTotal` are not modelled.
- Sending.Send: pieces are described by offset and length; reference counts of packets and failing allocations are not modelled. Unreliable packets need an unreliable number below 65535, as in the code.
- Receiver.IncomingChannel.HandleSendFragment: the memory of a new packet is blank here; in C its contents are whatever was there.
- DeliveryRuns.DeliverableExactly: that a packet can be put in order supposes a receiver with room for it and its size; how soon it is, with what losses, is not modelled.
- Receiver.IncomingChannel.Receive: the count of waiting data is that of one reliable channel and what the others added; what unreliable packets add to it is not modelled.
- Receiver.IncomingChannel.Arrive: one channel at a time; commands that carry no packet, and the discarding of packets by a peer that is disconnecting, are not modelled.
- Sender.Peer.DropUnreliable: a command without a packet directly behind a throttled unreliable one with its numbers, such as a ping on channel 255 with a number divisible by 65536 behind an unsequenced packet, is dropped here like any other; the C code dereferences its null packet.
- UnreliableReceiver.UnreliableChannel.HandleFragment: the count of waiting data is only a flag for room.
- UnreliableReceiver.UnreliableChannel.Dispatch: `NEEDS_DISPATCH` and the host's queue of peers are not modelled.
- Unsequenced.UnsequencedWindow.HandleSendUnsequenced: the window is a sequence of flags instead of 32-bit words.
- LinkedList.Move: the lists of the other modules are sequences; that their operations on pointers do the same is proved here, once.
- PeerStates.PeerHost.HandleConnect: session numbers, window sizes, transmission units and the reply are not modelled, nor failing allocations.
- PeerStates.PeerHost.HandleAcknowledge: round-trip times and the packet throttle they steer are not modelled.
- Bandwidth.BandwidthHost.BandwidthThrottle: assumes that no peer carries the current time as its epoch and that the products of the pass do not wrap around.
- Checksum.EnetCrc32: the final swap of bytes is that of a little-endian machine.
- WorldState.BuildWorldState: reference counts and the freeing of a world state, demo recording, and packets that could not be queued are not modelled.
- Bots.AiManager.AddAi: names, teams, skills and models of bots are not modelled; the number of teams plays no part.
- AliasArguments.Interpreter.Execute: the byte code itself is not modelled; a script is any finite sequence of assignments, references and calls, nested to any depth. `push` and `local` do not apply to arguments.
- QuotedLists.ExplodeList: only where it ends, that is, not without limit on a text whose list comes to an `@`.
- `escapeid`, and the list functions built on `parselist` other than `explodelist`, would add only easy members.
- Bytes in transit while not connected: resetting the queues does not reset the count.
- `enet_host_service`, sockets, clocks, compression and checksums of datagrams as a whole, and failing allocations: input and output.
- Chat commands, votes, bans, statistics, demos, maps, the HTTP, IRC and database code of the server: plumbing.
- The client: rendering, sound, editing, physics and the steering of bots.
