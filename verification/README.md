# Riden dongle: a verified model of the protocol core

The dongle puts a Riden power supply on the network. It is single-threaded: one main loop gives each component
a turn. A VXI-11 server and a raw SCPI socket server share one parser, one input buffer, one output buffer and
one flag that says who is in charge; a Modbus TCP bridge and the firmware's own register calls share one serial
line; a port mapper tells clients which port the VXI-11 server listens on; a script maintains the web pages in a
header file; the settings live in EEPROM. This project models those parts and proves what they promise.

Each stateful component comes twice: as functions on its state, which say what one operation does, and as a
class with the source's fixed buffers, flags and loops, whose methods are proved to do exactly that
(`Firmware.Main.Loop`: one pass of the main loop is five steps of the machine). The theorems are about the
functions, over every run.

## What is proved

**Sharing the parser** (`MainLoop`, `ScpiTheorems`, `ControlTheorems`). A run is any sequence of turns in the
main loop's order, with bytes, connects, losses of peers and web orders between any two of them. If every VXI-11
connection creates a link before it writes, then a VXI-11 write is parsed only while no raw client is attached, no
raw line is parsed while a link is up, and a raw client only ever receives bytes produced by parsing its own lines
(`MutualExclusion`, `RawSessionsIsolated`). Without the discipline there is a colliding run for every write request
(`UnlinkedWriteCollides`), but never one in which control was held at the raw server's last turn (`WriteMeetsRaw`).
Control ends exactly with DESTROY_LINK or a web order that hits the VXI-11 client; a peer that is lost otherwise
leaves the raw server disabled (`ControlEndsOnlyByRelease`, `RawStaysDisabled`). In every reachable state no output
byte is lost, doubled or reordered and no VXI-11 read takes an unfinished reply (`OutputIsConserved`). However a raw
stream is cut up, the parser gets the same lines (`LineAssembly`), also over runs of the main loop with other turns in
between (`SessionTheorems.RawSessionIsAssembled`), and whatever the parser says and finishes is sent to that client, all
of it and in order (`RawReplies.RawSessionIsAnswered`). The runs include every behaviour of the raw
clients; of VXI-11 clients they include everything but a request whose inner lengths leave no room in the packet
buffer (not `VxiModel.Servable`). Such a request takes the server out of the run: it gets no further turn until its
client is gone.

**Sessions of the VXI-11 server** (`LinkTheorems`). The reads of a link deliver what the output buffer held at its
CREATE_LINK and then exactly what its own writes emitted, over every run while the link is up
(`LinkReadsLeftoverThenOwn`). So, for a connection that has written nothing before its link: once a read has
delivered, all bytes read are the session's own exactly if the buffer was empty at CREATE_LINK
(`ReadsAreOwnIffBufferWasEmpty`). The parser is given the command of a write request without the white space behind it
(`ControlTheorems.CommandIsParsed`).

**The wire** (`RpcPackets`, `VxiTheorems`). Every stream of framed requests is answered request by request, each
from its own bytes, whatever earlier requests left in the buffers (`RequestsAnswered`, `EveryRequestAnswered`). The
requests need not be there at once: whole requests may arrive in any number between any two turns
(`VxiArrivals.ArrivalsAnswered`). The same holds in the middle of everything else the dongle does: over runs of the
main loop a connection that is held is answered request by request, however its stream is cut up, as long as no turn
finds a part of a request (`SessionTheorems.HeldConnectionIsAnswered`). A record has to be there whole when its turn comes (`RecordReadIffWhole`). A read reply decodes to exactly what was read (`ReadReplyRoundTrip`).

**Ports** (`CyclicPort`, `PortTheorems`). The server listens `k` places further round its range after `k` closes,
and a port a bind reply told is the listening port exactly after whole turns of the range.

**The serial line** (`SerialBus`, `ModbusBridge`). At most one transaction is outstanding; the k-th response to TCP
belongs to the k-th accepted request and no local answer goes out, provided forwarded requests are answered. Without
that, the history of the line alone tells where every answer went (`EveryAnswerIsRouted`).

**Registers** (`Registers`, `RidenModbus`, `Scaling`). Every measured quantity, setting and preset is tied to its registers
by their numbers (`MeasurementRegisters`, `SettingRegisters`, `PresetRegisters`), and the models to their ids
(`ModelMatchesId`). The chunked bulk read agrees with the individual getters;
bulk writes equal their parts in any order. Reading a value and writing it back in rounded double arithmetic loses at
most one step (`EncodeDecoded`), and with rounding to the nearest double it is told for every value and multiplier
whether it loses one (`Doubles.EncodeDecodedExactly`).

**The section generator** (`ExtractCode`, `InsertCode`). Exactly the lines with something left are kept, each without its
comment and nothing else (`CleanLinesAreKept`, `CodeBeforeCommentIsKept`). The printed C literals read back as the cleaned text; the
line machine replaces one section, is idempotent, and two sections commute, for the markers the script uses too.

**Configuration** (`RidenConfig`). Each boot restores the last commit that worked and opens the portal exactly when a
request was committed, or an earlier one could not be taken out of the image.

## Where code and documentation part

- README.md:73 says the raw server is disabled while the VXI server is used. It is, for linked connections, and it
  stays disabled after a VXI-11 peer was lost without DESTROY_LINK.
- CREATE_LINK advertises 252 bytes per write (rpc_packets.h:214-215). A write is received whole with room for the
  terminator behind it exactly if it has at most 192 bytes and at most 191 in front of trailing white space
  (`VxiTheorems.WriteServedIffSmall`); 192 bytes that end otherwise leave no room for it
  (`VxiTheorems.FullWriteHasNoRoom`).
- The read handler takes a reply of up to 256 bytes; of those delivered, exactly the ones of at most 216 make a frame
  the send buffer has room for (`VxiTheorems.ReadReplyFitsIff`).
- A new link clears neither the output buffer nor the ready flag. For a connection that has
  written nothing before its link, and once a read has delivered, the session reads only its own bytes exactly if the
  output buffer was empty at CREATE_LINK (`LinkTheorems.ReadsAreOwnIffBufferWasEmpty`). It is not after a reply nobody
  fetched (`VxiTheorems.UnfetchedReplyGoesToNextSession`), nor after a raw reply whose peer was lost before the
  flush (`LinkTheorems.CutReplyGoesToNextSession`).
- `get_preset` is documented to take 1 for M1, with nine presets; it takes 0 to 8 (`Registers.PresetsAgree`).
- A forwarded Modbus request that stays unanswered leaves the raw callback installed. On an idle line the next local
  answer reaches its caller exactly if no request was left behind or something was answered since
  (`SerialBus.NextLocalAnswer`).
- A register value that is read, scaled and written back comes back one lower exactly if the quotient was rounded
  down by more than half a unit of the values just below it (`Doubles.EncodeDecodedExactly`); 29 at the multiplier 100
  does (`Scaling.OneStepLost`).
- The generator finds a section exactly if its declaration stands directly behind an odd number of maintenance notices
  with an end marker later on (`InsertCode.ScriptFindsSection`); two notices in a row hide it
  (`InsertCode.NoticesInARow`).
- A port mapper call of fewer than 24 bytes may be answered from what an earlier one left in the buffer
  (`BindModel.StaleUnseenFrom24`).

## Assumptions about the surroundings

- The SCPI parser library takes the whole input buffer, leaves the position at 0, and calls back in any way it
  likes: a script of emitted bytes, flushes and losses of the raw peer, chosen freely for every input.
- A client handle is held or not. A peer can be lost with the handle still testing true or with the handle gone at
  once; both happen at any time. Connection numbers are names the environment gives; they only label bytes.
- The Modbus RTU engine works on what it is issued for some number of polls and then brings an answer or nothing.
- A commit of the EEPROM library that fails leaves the image in flash as it was; an erase that works before a write
  that fails would not.
- Every byte carries the connection it came from and operations keep logs. No branch looks at either.

## Model

| member | source | states |
|---|---|---|
| Bytes.BigEndianInverse | src/vxi11_server/utilities.h:21-40 | a field written and read back is the same word, and its four bytes are the word's only image |
| Bytes.NetworkOrder | src/vxi11_server/utilities.h:21-40 | the first octet carries the most significant bits |
| Bytes.PutWordFrame | src/vxi11_server/utilities.h:21-40 | assigning one overlaid field changes that field and no other byte |
| Bytes.StoreWord | src/vxi11_server/utilities.h:32 | the buffer afterwards is the old one with the field's four bytes in network order |
| Bytes.LoadWord | src/vxi11_server/utilities.h:39 | the value is the big-endian word at that place of the buffer |
| CyclicPort.NextPrevInverse | src/vxi11_server/utilities.h:87-106 | both steps stay in range and undo each other everywhere, the ends included; a step stands still exactly in a one-value range |
| CyclicPort.AheadStep | src/vxi11_server/utilities.h:102-106 | k steps land on start + (value - start + k) mod size |
| CyclicPort.AheadCoincide | src/vxi11_server/utilities.h:102-106 | two positions are the same value exactly when they are whole turns apart |
| CyclicPort.CyclicWord.constructor | src/vxi11_server/utilities.h:65-70 | swapped bounds are put in order and a start value outside the range becomes its start |
| CyclicPort.CyclicWord.IsNoncyclic | src/vxi11_server/utilities.h:75 | true exactly for a range of one value |
| CyclicPort.CyclicWord.GotoPrev | src/vxi11_server/utilities.h:87-91 | the fields move to the previous position and the new value is returned |
| CyclicPort.CyclicWord.GotoNext | src/vxi11_server/utilities.h:102-106 | the fields move to the next position and the new value is returned |
| CyclicPort.CyclicWord.PostIncrement | src/vxi11_server/utilities.h:123-128 | moves to the next position and returns the value before |
| RpcPackets.GetRecord | src/vxi11_server/rpc_packets.cpp:82-103 | over any earlier buffer content a record that fits is recovered byte for byte and the stream is left at the next record |
| RpcPackets.RecordConsumedIffFits | src/vxi11_server/rpc_packets.cpp:92-95 | a record is consumed whole exactly when its payload fits behind the four prefix bytes |
| RpcPackets.TinyRecordStays | src/vxi11_server/rpc_packets.cpp:92-97 | the body of a record of 1 to 4 bytes is announced and left in the stream |
| RpcPackets.RecordReadIffWhole | src/vxi11_server/rpc_packets.cpp:82-103 | a record is recovered whatever the buffer held exactly if all of it is at hand |
| RpcPackets.PaddingIsMinimal | src/vxi11_server/rpc_packets.cpp:175-179 | the zeros added reach a multiple of four and no fewer would |
| RpcPackets.ReplyFields | src/vxi11_server/rpc_packets.cpp:203-212 | every reply reads as an accepted reply with its xid, null verifier, status and body fields, whatever follows |
| RpcPackets.OpenRecordInverse | src/vxi11_server/rpc_packets.cpp:181 | the prefix is the last-fragment bit and the length, so the far end recovers the payload |
| RpcPackets.ReceivePacket | src/vxi11_server/rpc_packets.cpp:50-103 | buffer, unread stream and length are those of reading one record over the old buffer, short streams and long records included |
| RpcPackets.FillResponseHeader | src/vxi11_server/rpc_packets.cpp:203-212 | exactly the five header words are overwritten; status and body behind them survive |
| RpcPackets.PadPacket | src/vxi11_server/rpc_packets.cpp:177-179 | zeros up to the next multiple of four, nothing else touched |
| RpcPackets.SendPacket | src/vxi11_server/rpc_packets.cpp:136-192 | the bytes sent are the record of header and assigned fields, padded, whatever else the buffer held |
| ScpiTheorems.AppendConserves | src/riden_scpi/riden_scpi.cpp:169-178 | appending keeps the account: produced bytes are drained bytes followed by the buffer |
| ScpiTheorems.FlushConserves | src/riden_scpi/riden_scpi.cpp:180-196 | flushing keeps the account, whether it sends, marks the reply ready or finds nobody |
| ScpiTheorems.ReactConserves | src/riden_scpi/riden_scpi.cpp:151-196 | any sequence of parser callbacks keeps the account |
| ScpiTheorems.WriteConserves | src/riden_scpi/riden_scpi.cpp:702-715 | a VXI write keeps the account |
| ScpiTheorems.ReadConserves | src/riden_scpi/riden_scpi.cpp:725-742 | a VXI read keeps the account and takes bytes only after a flush that followed the last append |
| ScpiTheorems.LoopConserves | src/riden_scpi/riden_scpi.cpp:786-846 | a turn of the raw server keeps the account, the reset at attachment included |
| ScpiTheorems.ReactIsolated | src/riden_scpi/riden_scpi.cpp:169-196 | while the parser works for the attached session, everything buffered and sent belongs to that session |
| ScpiTheorems.WriteIsolated | src/riden_scpi/riden_scpi.cpp:702-715 | a linked VXI write with no raw client attached keeps isolation and exclusion |
| ScpiTheorems.LoopIsolated | src/riden_scpi/riden_scpi.cpp:786-846 | a raw turn keeps isolation and exclusion if a link implies external control |
| LineAssembly.TakeBytesSplits | src/riden_scpi/riden_scpi.cpp:815-835 | the byte loop stops behind the first newline, at the end of the bytes, or at the byte after 256 without one |
| LineAssembly.LinesAreAssembled | src/riden_scpi/riden_scpi.cpp:811-837 | for every stream and every split over turns the parser got exactly the complete lines consumed, the rest is in the buffer, and a stopped connection had an overlong line with all earlier ones parsed |
| LineAssembly.SplitIsUnique | src/riden_scpi/riden_scpi.cpp:811-837 | a stream splits into lines that fit and a rest without one in one way only |
| LineAssembly.ChunkingIsInvisible | src/riden_scpi/riden_scpi.cpp:811-837 | two runs over the same bytes that read them all parse the same lines and end alike |
| LineAssembly.PollsReadEverything | src/riden_scpi/riden_scpi.cpp:811-837 | as many turns as there are bytes waiting read them all or stop the connection |
| RidenScpi.ScpiServer.ScpiWrite | src/riden_scpi/riden_scpi.cpp:169-178 | the bytes join the end of the output buffer and the reply is no longer ready |
| RidenScpi.ScpiServer.ScpiFlush | src/riden_scpi/riden_scpi.cpp:180-196 | under external control only marks the reply ready; else sends everything if a client is there |
| RidenScpi.ScpiServer.ScpiInput | src/riden_scpi/riden_scpi.cpp:832 | the parser takes the input buffer and its callbacks act in order |
| RidenScpi.ScpiServer.ClaimExternalControl | include/riden_scpi/riden_scpi.h:36-39 | always granted; only the flag changes |
| RidenScpi.ScpiServer.ReleaseExternalControl | include/riden_scpi/riden_scpi.h:40 | only the flag changes |
| RidenScpi.ScpiServer.Write | src/riden_scpi/riden_scpi.cpp:702-715 | empty and oversized commands are ignored; others replace the input buffer, take control and are parsed |
| RidenScpi.ScpiServer.Read | src/riden_scpi/riden_scpi.cpp:725-742 | succeeds exactly under control with a ready reply that fits; then copies all of it and empties the buffer |
| RidenScpi.ScpiServer.ResetBuffers | src/riden_scpi/riden_scpi.cpp:869-874 | both buffers are empty, the ready flag is not touched |
| RidenScpi.ScpiServer.DisconnectClient | src/riden_scpi/riden_scpi.cpp:862-867 | drops the client exactly if it is connected from that address |
| RidenScpi.ScpiServer.ReadLine | src/riden_scpi/riden_scpi.cpp:812-837 | the loop over single bytes does what the specification of a turn says |
| RidenScpi.ScpiServer.Loop | src/riden_scpi/riden_scpi.cpp:786-846 | yields under external control; else attaches, reads, parses and drops in that order |
| RawReplies.FinishedReplyIsSent | src/riden_scpi/riden_scpi.cpp:180-196 | when the parser finishes its reply, an attached client in charge is sent the buffer as it was and then exactly what was emitted, and the buffer is empty |
| RawReplies.RawTurnReplies | src/riden_scpi/riden_scpi.cpp:811-846 | the same for the raw turn that completes a line |
| RawReplies.RawSessionIsAnswered | src/riden_scpi/riden_scpi.cpp:797-846 | over every run from the attachment on, all the parser says for a raw client is sent to it in order and none stays behind |
| RawReplies.DeadClientsAreDropped | src/riden_scpi/riden_scpi.cpp:839-845 | without external control no raw turn leaves a disconnected client attached |
| RawReplies.NextClientIsAttached | src/riden_scpi/riden_scpi.cpp:797-845 | a client that lost its peer makes way and the next one to come is attached |
| VxiTheorems.StaleBytesUnseen | src/vxi11_server/vxi_server.cpp:108-152 | what an earlier request left in the buffer changes neither effect nor reply |
| VxiTheorems.ReplyMatchesRequest | src/vxi11_server/vxi_server.cpp:108-229 | one accepted reply with the request's xid, the status of the dispatch and the body: receive size, written length as sent, END and data length; the connection closes exactly on DESTROY_LINK |
| VxiTheorems.EveryRequestAnswered | src/vxi11_server/vxi_server.cpp:75-152 | the k-th reply of a session answers the k-th request, and the session closes on the last one served |
| VxiTheorems.OneRequest | src/vxi11_server/vxi_server.cpp:83-97 | one turn takes exactly the next request off the stream and sends exactly its reply |
| VxiTheorems.RequestsAnswered | src/vxi11_server/vxi_server.cpp:75-152 | for every concatenation of framed requests the frames sent are those of answering each from its own bytes, up to the first DESTROY_LINK, and later bytes stay unread |
| VxiTheorems.ReadReplyRoundTrip | src/vxi11_server/vxi_server.cpp:191-208 | decoding the frame gives xid, END, and exactly the bytes read; the frame fits the send buffer |
| VxiTheorems.ReadReplyFitsIff | src/vxi11_server/vxi_server.cpp:191-208 | of the replies delivered, exactly those of at most 216 bytes make a frame that fits the send buffer |
| VxiTheorems.FinishedReplyIsRead | src/riden_scpi/riden_scpi.cpp:725-742 | a finished reply of up to 256 bytes is delivered whole and leaves the buffer empty |
| VxiTheorems.TrimTakesOffWhite | src/vxi11_server/vxi_server.cpp:213-218 | of the octets 9 to 13 and 32 all at the end are taken off, and nothing else |
| VxiTheorems.TerminatedInPlace | src/vxi11_server/vxi_server.cpp:171 | the string of a request is terminated right behind it and no other byte changes |
| VxiTheorems.CreateServedIffSmall | src/vxi11_server/vxi_server.cpp:154-180 | a device name is received whole with room for its terminator exactly if it has at most 195 bytes |
| ControlTheorems.CommandIsParsed | src/vxi11_server/vxi_server.cpp:210-222 | the line parsed for a write request is its command without the white space behind it; nothing but white space is not handed over |
| VxiTheorems.FirstReadSeesLeftover | src/vxi11_server/vxi_server.cpp:154-208 | a read that directly follows CREATE_LINK returns what was ready in the output buffer when the link was made |
| VxiTheorems.UnfetchedReplyGoesToNextSession | src/vxi11_server/vxi_server.cpp:154-180 | for every query and text, a reply abandoned by one session is read by the next |
| VxiTheorems.WriteReceivedIffSmall | src/vxi11_server/rpc_packets.cpp:82-103 | of the 252 bytes advertised, exactly writes of at most 192 are consumed whole |
| VxiTheorems.WriteServedIffSmall | src/vxi11_server/vxi_server.cpp:210-222 | within the 252 bytes advertised a write is received whole with room for its terminator exactly if it has at most 192 bytes, at most 191 before trailing white space |
| VxiTheorems.FullWriteHasNoRoom | src/vxi11_server/vxi_server.cpp:219 | 192 bytes that do not end in white space are received whole and leave no room for the terminator |
| VxiArrivals.ArrivalsAnswered | src/vxi11_server/vxi_server.cpp:75-152 | whole requests arriving in any number between turns are answered in order from a queue, each by its own reply, up to the first DESTROY_LINK |
| SessionTheorems.HeldConnectionIsAnswered | src/main.cpp:195-202 | over every run of the main loop while a connection is held, its frames answer its requests in order, one reply each, however the stream is cut up, if no turn finds a part of a request |
| SessionTheorems.RawSessionIsAssembled | src/riden_scpi/riden_scpi.cpp:797-837 | from its attachment on, over every run that leaves it attached and control untaken, the parser gets exactly the complete lines of a raw client; it is stopped only for an overlong one |
| LinkTheorems.LinkReadsLeftoverThenOwn | src/vxi11_server/vxi_server.cpp:154-229 | over every run while a link is up its reads and the buffer are what the buffer held at CREATE_LINK followed by what its own writes emitted; the leftover comes with the first read |
| LinkTheorems.ReadsAreOwnIffBufferWasEmpty | src/riden_scpi/riden_scpi.cpp:725-742 | a session that has not written before its link reads its own bytes only, exactly if the output buffer was empty at CREATE_LINK |
| LinkTheorems.FirstQuerySeesLeftover | src/riden_scpi/riden_scpi.cpp:169-178 | the first query of a session is answered with the buffer's content in front of the reply, ready or not |
| LinkTheorems.CutReplyGoesToNextSession | src/riden_scpi/riden_scpi.cpp:180-196 | a raw reply whose peer is lost before the flush is read by the next VXI-11 session |
| VxiServer.Server.Allocate | src/vxi11_server/vxi_server.cpp:31-39 | the counter's port while no client is held, else 0 |
| VxiServer.Server.Begin | src/vxi11_server/vxi_server.cpp:41-73 | drops the client and moves counter and listener on together, except in a one-port range |
| VxiServer.Server.CreateLink | src/vxi11_server/vxi_server.cpp:154-180 | control is taken, the name is terminated in place, and the frame sent is the success reply |
| VxiServer.Server.DestroyLink | src/vxi11_server/vxi_server.cpp:182-189 | the success reply is sent and control is given up |
| VxiServer.Server.DevRead | src/vxi11_server/vxi_server.cpp:191-208 | the frame carries the length and exactly the bytes the parser's reply holds |
| VxiServer.Server.TrimmedLength | src/vxi11_server/vxi_server.cpp:213-218 | the loop leaves off exactly the trailing white space |
| VxiServer.Server.DevWrite | src/vxi11_server/vxi_server.cpp:210-229 | the trimmed data is parsed and the reply reports the untrimmed length |
| VxiServer.Server.HandlePacket | src/vxi11_server/vxi_server.cpp:108-152 | on the buffers, the effect, the one reply frame and the close flag are those of the request |
| VxiServer.Server.Loop | src/vxi11_server/vxi_server.cpp:75-106 | on the buffers and sockets, one turn is one turn of the specification |
| VxiServer.Server.DisconnectClient | src/vxi11_server/vxi_server.cpp:247-253 | a hit drops the client and releases control, a miss changes nothing |
| BindModel.ProcessTells | src/vxi11_server/rpc_bind_server.cpp:85-123 | SUCCESS exactly for GETPORT of PORTMAP on a free server with a nonzero port; any other answer carries port 0 |
| BindModel.RefusalsTold | src/vxi11_server/rpc_bind_server.cpp:85-123 | status 1 exactly for another program, 3 exactly for another procedure of the port mapper, 4 exactly for a proper call without a port |
| BindModel.CallsWaitForFreeServer | src/vxi11_server/rpc_bind_server.cpp:34-71 | during a VXI-11 session nothing is read or answered; a free server answers every datagram and no empty connection |
| BindModel.DatagramAnsweredAlone | src/vxi11_server/rpc_bind_server.cpp:51-57 | a datagram of at least 24 bytes is answered from its own bytes |
| BindModel.RecordAnsweredAlone | src/vxi11_server/rpc_bind_server.cpp:58-69 | so is a record of 24 to 60 bytes |
| BindModel.StaleUnseenFrom24 | src/vxi11_server/rpc_packets.cpp:28-39 | calls of a given length are answered alike whatever lies behind them exactly from 24 bytes on |
| RpcBindServer.BindServer.ProcessRequest | src/vxi11_server/rpc_bind_server.cpp:85-123 | on the buffers of either front end, header and assigned fields are the reply to the request |
| RpcBindServer.BindServer.ServeUdp | src/vxi11_server/rpc_bind_server.cpp:51-57 | the datagram sent is the reply without record mark |
| RpcBindServer.BindServer.ServeTcp | src/vxi11_server/rpc_bind_server.cpp:58-69 | the record sent is the reply to the record read, none for an empty one |
| RpcBindServer.BindServer.Loop | src/vxi11_server/rpc_bind_server.cpp:34-71 | requests wait while the server is busy, UDP goes first, at most one reply a turn |
| MainLoop.RunSound | src/main.cpp:195-202 | over every run: a link implies control and a client, control implies no raw client from the raw turn to the VXI turn, the account of output bytes balances, the listener is on the counter's port |
| MainLoop.OutputIsConserved | src/riden_scpi/riden_scpi.cpp:169-196 | in every reachable state the bytes produced are those drained followed by those buffered, and reads took finished replies only |
| MainLoop.MutualExclusion | src/main.cpp:195-202 | over every orderly run a VXI write is parsed with the link held and no raw client, and no raw line while a link is up |
| MainLoop.RawSessionsIsolated | src/riden_scpi/riden_scpi.cpp:797-837 | over every orderly run each parsed line and each byte sent to a raw client belongs to that session |
| ControlTheorems.ControlEndsOnlyByRelease | src/vxi11_server/vxi_server.cpp:182-189 | external control ends with a step exactly if it serves DESTROY_LINK or hits the VXI client from the web |
| ControlTheorems.RawStaysDisabled | src/riden_scpi/riden_scpi.cpp:788-795 | over every run without a release no raw line is parsed, nothing is sent raw and raw clients are turned out |
| ControlTheorems.LostPeerKeepsControl | src/vxi11_server/vxi_server.cpp:81-97 | losing the peer, and the close that follows, leaves control taken |
| ControlTheorems.WebOrderHitsItsAddress | src/vxi11_server/vxi_server.cpp:247-253 | a web order drops the client at its address, with control for VXI-11, and leaves every other client and control alone |
| ControlTheorems.WriteMeetsRaw | src/riden_scpi/riden_scpi.cpp:713 | a write meets a raw client exactly when one is attached, never if control was held at the raw turn |
| ControlTheorems.UnlinkedWriteCollides | src/riden_scpi/riden_scpi.cpp:713 | for every acceptable write of a connection without a link there is a run that parses it while a raw client is attached |
| PortTheorems.PortRotation | src/vxi11_server/vxi_server.cpp:41-73 | after k closes the listening port is start + (p0 - start + k) mod size; a one-port range never moves |
| PortTheorems.BindAnswerStaysValid | src/vxi11_server/rpc_bind_server.cpp:85-123 | a SUCCESS port is nonzero and the listening one, and is so later exactly after whole turns of closes; other answers carry 0 |
| Firmware.Main.constructor | src/main.cpp:71-117 | what setup leaves is an initial state of the machine |
| Firmware.Main.Loop | src/main.cpp:195-202 | one pass over the real buffers is the five steps of the machine in the loop's order |
| SerialBus.OneTransactionAtATime | src/riden_modbus/riden_modbus.cpp:706-756 | over all mixes of local calls, forwarded requests and polls at most one transaction is outstanding |
| SerialBus.BridgePairing | src/riden_modbus_bridge/riden_modbus_bridge.cpp:73-133 | the k-th response carries source and answer of the k-th accepted request, the callback is installed exactly while one is outstanding, and local calls get exactly their answers |
| SerialBus.RequestsTakenOrRefused | src/riden_modbus_bridge/riden_modbus_bridge.cpp:86-98 | over every run the requests on the line are those taken, under their own sources, and the error responses are slave and function code of those refused, in order |
| SerialBus.VerdictsTell | src/riden_modbus_bridge/riden_modbus_bridge.cpp:86-133 | success exactly for a taken request; towards the server the data passes through, else it is sent under the stored source, which is cleared |
| SerialBus.EveryAnswerIsRouted | src/riden_modbus_bridge/riden_modbus_bridge.cpp:73-133 | over every run, answered or not, the callback is installed exactly while a forwarded request is outstanding or was left behind, and all responses and local answers are those this sends each way |
| SerialBus.LeftBehindAt | src/riden_modbus_bridge/riden_modbus_bridge.cpp:117 | a request is left behind exactly if some forwarded one and everything issued since stayed unanswered |
| SerialBus.NextLocalAnswer | src/riden_modbus_bridge/riden_modbus_bridge.cpp:107-133 | after every run that ends idle the next local answer reaches its caller exactly if nothing was left behind; else it goes to TCP as the response to that request |
| SerialBus.LocalAnswerGoesWhere | src/riden_modbus_bridge/riden_modbus_bridge.cpp:107-133 | on an idle line a local answer within the caller's patience goes to TCP exactly when the callback is installed, and the call reports success either way |
| SerialBus.SilenceMisroutesNextAnswer | src/riden_modbus_bridge/riden_modbus_bridge.cpp:117 | after an unanswered forwarded request the next local answer is sent as its response |
| ModbusBridge.DongleBus.RtuRawCallback | src/riden_modbus_bridge/riden_modbus_bridge.cpp:107-133 | takes itself out, forwards an answer under the stored source and clears it |
| ModbusBridge.DongleBus.WaitForInactive | src/riden_modbus/riden_modbus.cpp:683-704 | ends because the time left shrinks; true only on an idle line, false only after the timeout or before initialisation |
| ModbusBridge.DongleBus.LocalCall | src/riden_modbus/riden_modbus.cpp:706-756 | waits, issues, waits again; success means the line is idle |
| ModbusBridge.DongleBus.WaitUntilIdle | src/riden_modbus_bridge/riden_modbus_bridge.cpp:82-85 | polls until nothing is outstanding, delivering what was |
| ModbusBridge.DongleBus.TcpRawCallback | src/riden_modbus_bridge/riden_modbus_bridge.cpp:73-101 | an accepted request is issued on an idle line with its source stored and the callback installed; a refused one gets an error response |
| Registers.SetManyWrites | src/riden_modbus/riden_modbus.cpp:539-600 | a run of single preset setters changes exactly the registers it names |
| Registers.SetPresetIsFourSetters | src/riden_modbus/riden_modbus.cpp:514-609 | writing a preset equals its four setters in any order and touches no other register |
| Registers.DateAndTimeAreTheClock | src/riden_modbus/riden_modbus.cpp:385-402 | date and time commute and together are the clock |
| Registers.ClockRoundTrip | src/riden_modbus/riden_modbus.cpp:848-866 | the clock read back is the clock set exactly when every field fits its register |
| Registers.PresetsAgree | src/riden_modbus/riden_modbus.cpp:187-190 | bulk presets[i] is get_preset(i + 1) for M1 to M8; index 9 is refused |
| Registers.EachRegisterReadOnce | src/riden_modbus/riden_modbus.cpp:137-144 | the chunks read every register below the total exactly once and no other |
| Registers.NoReadTooLong | src/riden_modbus/riden_modbus.cpp:129-140 | no chunk is empty or longer than 20 registers |
| Registers.JoinedIsItsWords | src/riden_modbus/riden_modbus.cpp:791-795 | the first register is the high word, the second the low word |
| Registers.LongReadsBack | src/riden_modbus/riden_modbus.cpp:791-822 | two registers that hold the words of a 32-bit value read as that value, scaled |
| Registers.CodesMean | src/riden_modbus/riden_modbus.cpp:807-846 | sign register, protection codes and output mode codes |
| Registers.MeasurementRegisters | include/riden_modbus/riden_modbus_registers.h:15-47 | every measured quantity is what the registers with its numbers hold, in its unit |
| Registers.PresetRegisters | include/riden_modbus/riden_modbus_registers.h:78-118 | M0 is at register 80, each preset four registers on, in the order voltage, current, over-voltage, over-current |
| Registers.SettingRegisters | include/riden_modbus/riden_modbus_registers.h:48-76 | clock, calibration and settings are what the registers with their numbers hold |
| Registers.ClockRegisters | src/riden_modbus/riden_modbus.cpp:392-402 | date and time go to registers 48 to 53 in the order of the clock |
| RidenModbus.PowerSupply.ReadAll | src/riden_modbus/riden_modbus.cpp:139-144 | the array ends up with exactly the first registers, read in those chunks |
| RidenModbus.PowerSupply.GetAllValues | src/riden_modbus/riden_modbus.cpp:127-193 | every field is what its own getter returns; a subset leaves the settings alone, a failure leaves everything alone |
| RidenModbus.PowerSupply.ReadPresets | src/riden_modbus/riden_modbus.cpp:187-190 | the nine presets from M1 on |
| RidenModbus.PowerSupply.GetPreset | src/riden_modbus/riden_modbus.cpp:525-537 | the addressed group decoded, nothing for an index above 8 |
| RidenModbus.PowerSupply.SetPreset | src/riden_modbus/riden_modbus.cpp:514-523 | writes the addressed group, refuses an index above 8 without writing |
| RidenModbus.PowerSupply.SetClock | src/riden_modbus/riden_modbus.cpp:385-390 | the six clock registers are written as one |
| RidenModbus.PowerSupply.GetClock | src/riden_modbus/riden_modbus.cpp:374-383 | the six clock registers decoded |
| Scaling.EncodeDecoded | src/riden_modbus/riden_modbus.cpp:776-805 | with every operation rounded, encoding a decoded 16-bit value gives it or one less, for every multiplier |
| Doubles.NearestIsNearest | src/riden_modbus/riden_modbus.cpp:776-805 | no double is closer to a quotient than the one the model's rounding returns |
| Doubles.EncodeDecodedExactly | src/riden_modbus/riden_modbus.cpp:776-805 | for every value and multiplier, rounding to nearest gives the value back or one less, one less exactly if the shortfall of the quotient exceeds half a unit of the values just below |
| Scaling.DoublesRound | src/riden_modbus/riden_modbus.cpp:776-805 | rounding to the nearest double stays within the relative error the other results allow |
| Scaling.OneStepLost | src/riden_modbus/riden_modbus.cpp:797-800 | 29 over 100 rounds to 5224175567749775 / 2^54, and comes back as 28 |
| Scaling.CyclesLoseLittle | src/riden_modbus/riden_modbus.cpp:776-805 | k cycles stay between n - k and n and never below 0 |
| Scaling.SetpointJustBelow | src/riden_modbus/riden_modbus.cpp:797-805 | without rounding a written setpoint is at most the request and less than one step below it |
| Scaling.PresetRoundTrip | src/riden_modbus/riden_modbus.cpp:868-882 | each field of a preset comes back at most as it was set and less than one step lower |
| Scaling.ModelMatchesId | src/riden_modbus/riden_modbus.cpp:60-95 | name, current rating and resolutions of a model follow from the digits of its id |
| Scaling.SetpointsFit | src/riden_modbus/riden_modbus.cpp:62-95 | for every accepted id, every setpoint up to the model's limit is encoded within 16 bits |
| ExtractCode.StagesCompose | src/riden_http_server/html_content/extract_code.py:10-16 | joining and splitting between the stages loses and merges no line that is kept |
| ExtractCode.CleanLinesAreClean | src/riden_http_server/html_content/extract_code.py:10-16 | no kept line is blank, starts as a comment or has a comment behind white space |
| ExtractCode.OnlyTheCommentIsCut | src/riden_http_server/html_content/extract_code.py:12 | a cut line is the front of the line, and in front of the comment only white space is gone |
| ExtractCode.CodeBeforeCommentIsKept | src/riden_http_server/html_content/extract_code.py:12 | code in front of white space and a comment is kept as it is |
| ExtractCode.SlashesInCodeAreKept | src/riden_http_server/html_content/extract_code.py:12 | slashes without white space in front are no comment |
| ExtractCode.StartsCommentMeans | src/riden_http_server/html_content/extract_code.py:14 | dropped as a comment are the lines with two slashes behind nothing but white space |
| ExtractCode.BlankMeans | src/riden_http_server/html_content/extract_code.py:16 | dropped as blank are the lines of nothing but white space |
| ExtractCode.CleanLinesAreKept | src/riden_http_server/html_content/extract_code.py:10-16 | the cleaned lines are, in order, exactly the lines that have something left and are no comment, each cut |
| PythonText.StripOf | src/riden_http_server/html_content/extract_code.py:10 | stripping takes all white space off both ends and leaves what is between |
| PythonText.SplitAtBreak | src/riden_http_server/html_content/extract_code.py:12-16 | a line ends at any line break, carriage return and line feed together being one |
| ExtractCode.PrintThenRead | src/riden_http_server/html_content/extract_code.py:18-24 | a C compiler reads any printed text back, carriage returns apart |
| ExtractCode.ExtractReadsBack | src/riden_http_server/html_content/extract_code.py:8-25 | for every input the literals read back as exactly the cleaned lines |
| ExtractCode.EveryCodeLineIsQuoted | src/riden_http_server/html_content/extract_code.py:21-24 | every generated line is a quote behind the indent |
| InsertCode.Insert | src/riden_http_server/html_content/extract_code.py:28-59 | the loop computes mode and output of the line machine; not found is an error |
| InsertCode.SectionIsInText | src/riden_http_server/html_content/extract_code.py:33-58 | the section the machine goes through is the first declaration behind an odd number of notices, and the first end marker behind it |
| InsertCode.FoundIffInText | src/riden_http_server/html_content/extract_code.py:33-58 | it succeeds exactly when a declaration stands directly behind an odd number of notices and an end marker comes later |
| InsertCode.ScriptFindsSection | src/riden_http_server/html_content/extract_code.py:88-94 | the same for the script's own texts, for every header and section name |
| InsertCode.ScriptIsIdempotent | src/riden_http_server/html_content/extract_code.py:88-94 | maintaining a section with the same content again changes nothing, for the script's own texts |
| InsertCode.ScriptSectionsCommute | src/riden_http_server/html_content/extract_code.py:91-94 | HTML_HEADER and HTML_CONTROL_BODY, where both stand in the text and apart, may be maintained in either order |
| InsertCode.NoticesInARow | src/riden_http_server/html_content/extract_code.py:41-49 | a section behind n notices in a row is found exactly if n is odd |
| InsertCode.InsertIsSplice | src/riden_http_server/html_content/extract_code.py:35-55 | only the lines between declaration and first end marker are replaced |
| InsertCode.SectionIsUnique | src/riden_http_server/html_content/extract_code.py:35-55 | the section is determined by the text |
| InsertCode.InsertIsIdempotent | src/riden_http_server/html_content/extract_code.py:28-59 | inserting generated code again changes nothing |
| InsertCode.InsertsCommute | src/riden_http_server/html_content/extract_code.py:91-94 | two sections that do not overlap can be maintained in either order |
| InsertCode.ScriptMarkersOk | src/riden_http_server/html_content/extract_code.py:88-89 | texts that start apart from each other and from a quote mark no generated line |
| InsertCode.ScriptTextsApart | src/riden_http_server/html_content/extract_code.py:88-89 | the script's own texts do, for every section name |
| InsertCode.IndentedMarkerIsHit | src/riden_http_server/html_content/extract_code.py:41-53 | a marker is hit behind any indent, whatever follows it |
| InsertCode.RepeatedNotice | src/riden_http_server/html_content/extract_code.py:41-49 | consecutive notices arm the machine exactly after an odd number of them |
| RidenConfig.LoadAfterPut | src/riden_config/riden_config.cpp:151-166 | all three fields come back, whatever stack and EEPROM held |
| RidenConfig.LoadV1 | src/riden_config/riden_config.cpp:58-65 | a V1 image gives its fields and the default baud rate |
| RidenConfig.LoadV2 | src/riden_config/riden_config.cpp:66-74 | a V2 image gives its three fields, whatever present ones and padding hold |
| RidenConfig.OthersAreUnknown | src/riden_config/riden_config.cpp:56-78 | an image is taken exactly if it starts with RD, a terminator and version 1 or 2 |
| RidenConfig.HostOrder | src/riden_config/riden_config.cpp:29-34 | words lie in EEPROM with the least significant byte first |
| RidenConfig.FirstBoot | src/riden_config/riden_config.cpp:47-93 | the first boot on any readable image keeps its fields or writes defaults, and opens the portal if the image asks |
| RidenConfig.BootRestoresAndOpens | src/riden_config/riden_config.cpp:131-139 | after every run of commits that work or fail, a boot restores the last one that worked and opens the portal exactly if a request was committed since the last check or could not be taken out by it |
| RidenConfig.NeverStuck | src/riden_config/riden_config.cpp:131-139 | where commits work every request is taken out by the check that finds it |
| RidenConfig.Config.Commit | src/riden_config/riden_config.cpp:151-175 | the image in RAM, and in flash if the commit works, encodes the fields |
| RidenConfig.Config.Begin | src/riden_config/riden_config.cpp:47-93 | a known image replaces the fields, an unknown one is replaced by them |
| RidenConfig.Config.GetAndResetConfigPortalOnBoot | src/riden_config/riden_config.cpp:131-139 | tells the flag and clears it, for good if the commit works |

## Left out

- The SCPI parser library and the command handlers: the parser is the script described above, the handlers are
  one-call wrappers around the register accessors.
- The Modbus library's frames, checksums and time limits: an outstanding transaction and its outcome remain.
- WiFi, mDNS, NTP, OTA, the LED, the HTTP pages, the timezone table, logging and the mocked build.
- The pass of the main loop without a power supply (`connected` false), in which only the web server runs.
- `scpi_context.buffer.length`: written by the modelled code, never read by it.
- Inner lengths of a request that reach beyond the packet buffer, parser output beyond the 256-byte output buffer
  and read replies above 216 bytes are outside the methods' preconditions; the fixed buffers have no room for them.
- The refusal branch of CREATE_LINK: the handler always grants control.
- RidenScpi.ScpiServer.ScpiWrite: output beyond the 256-byte buffer is excluded, the copy has no bound of its own.
- RidenScpi.ScpiServer.ScpiInput: parser output beyond the 256-byte buffer is excluded.
- RidenScpi.ScpiServer.Write: parser output beyond the 256-byte buffer is excluded.
- RidenScpi.ScpiServer.ReadLine: parser output beyond the 256-byte buffer is excluded.
- RidenScpi.ScpiServer.Loop: parser output beyond the 256-byte buffer is excluded.
- VxiServer.Server.CreateLink: a name that reaches the end of the packet buffer is excluded.
- VxiServer.Server.DevRead: replies above 216 bytes are excluded; the copy of the reply takes the bytes that were
  read, the source copies up to a zero byte.
- VxiServer.Server.DevWrite: data without room for the terminator in the packet buffer is excluded.
- VxiServer.Server.HandlePacket: requests whose inner lengths leave no room for the terminator are excluded.
- VxiServer.Server.Loop: turns in which such a request is at hand are excluded.
- Firmware.Main.Loop: passes with such a request or with parser output beyond the output buffer are excluded.
- VxiServer.Server.Begin: TCP ports are words, the listener's narrowing to 16 bits is not modelled.
- ModbusBridge.DongleBus.WaitForInactive: the millisecond clock does not wrap.
- Registers.SetManyWrites: physical values whose encoding does not fit 16 bits are excluded, their conversion is
  undefined in the source's language.
- Registers.SetPresetIsFourSetters: the same values are excluded.
- RidenModbus.PowerSupply.SetPreset: the same values are excluded.
- Doubles.EncodeDecodedExactly: exponents are unbounded; register values stay far from the ends of the range.
- RidenConfig.BootRestoresAndOpens: zone names are shorter than 100 bytes.
- RidenModbus.PowerSupply.GetAllValues: registers do not change while they are read.
- The individual scalar getters and setters that are one register access and one conversion; their meaning is in
  the functions of `Registers`.
