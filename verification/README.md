# FCS server: a verified model

The FCS server accepts TCP connections on a HPS system and passes attestation
requests on to the `/dev/fcs` driver. This project models its three layers in Dafny
and proves what holds of every run:

- the codec: little-endian words (`Utils.dfy`), the bit-packed command header
  (`CommandHeader.dfy`), over bitwise operators defined bit by bit (`Bits.dfy`);
- the request/response protocol: parser and printer (`VerifierProtocol.dfy`), driver
  calls (`FcsCommunication.dfy`), the message handler (`MessageHandler.dfy`), a grammar
  of requests that does not mention the parser (`RequestGrammar.dfy`), and what clients
  and driver can rely on (`HandlerProperties.dfy`);
- the connection table and poll loop (`TcpServer.dfy`) over a model of the operating
  system (`Kernel.dfy`), a reference automaton for one connection
  (`ConnectionLog.dfy`), one scan (`ScanSteps.dfy`), any number of rounds
  (`ServerRuns.dfy`), rounds stopped half-way (`PartialRounds.dfy`), and the main
  results (`RunTheorems.dfy`, `Conversations.dfy`).

Objects of the source that are updated in place are classes here, with the source's
methods, loops and in-place writes; each method is proved equal to a function of the
state before it, and the results are proved about those functions. The method
`RunTheorems.Serve` joins the two: it runs the classes from setup on and leaves the
kernel that the run function gives, so every result about runs holds of the classes.

## Main results

1. Whole-run refinement (`SequentialService`): on every connection of every run, what is
   handed to `send` is exactly the handler mapped over that connection's messages.
2. The conversation on each connection, from acceptance to close, is a function of what
   is reported and answered for its own slot (`ConversationFromAccept`,
   `ConversationOfSlot`, `Noninterference`): other connections, slot reuse, descriptor
   numbers and the shared buffer make no difference.
3. Every message in every run is received up to 10000 bytes and answered as the grammar
   says (`MessageInRun`); every well-formed request arrives whole (`RequestInRun`).
4. Descriptor conservation between rounds and after any slot of a scan or a timeout
   (`DescriptorConservation`, `ConservationWithinScan`, `ConservationWithinTimeout`,
   `TimeoutAtEnd`, `SignalAtEnd`), with the exact condition under which the listener
   survives and a connection is accepted (`AcceptedExactly`).
5. No stale events (`ScanIsAsReported`): a scan's effects are a function of the table
   poll reported on, slot by slot.
6. The parser's language is exactly the grammar (`AcceptedIffPrinted`, `ReadPrinted`,
   `PrintRead`), with the exact error code of every rejection (`ErrorOfParse`).
7. The response to every request, exactly (`ResponseOfRequest`), and the driver's log by
   the grammar alone (`DriverSeesRequests`).
8. The stack law of bit packing and its converse, for any list of widths (`StackLaw`,
   `UnstackLaw`), and the place of every header field in the bytes of a message
   (`HeaderByBytes`).

What the program is measured against does not take its numbers from the program: the
grammar, the expected driver calls, the reactions, the place of the header fields in the
bytes, the connection limit and the events of poll are written out.

## The environment

Everything the environment decides is an argument, a script of rounds: how each `poll`
ends (failure, timeout, a termination signal instead, or reported events), and for each
slot the outcome of `accept`, `recv`, the driver and `send`. Runs are quantified over all
scripts. The model builds in these assumptions:

- `accept`, `socket` and `open` return a descriptor that is not open, or fail; which
  number it is, is up to the environment.
- `poll` reports nothing for negative descriptors (`poll()`, System Interfaces volume of
  IEEE Std 1003.1-2017), and readiness to read only where it was asked for.
- `close` of an open descriptor succeeds and frees it; of any other it does nothing but
  leave a trace in the log.
- `recv` and `send` on a descriptor concern the connection `accept` returned it for, and
  an `ioctl` the device `open` returned it for.
- A timeout reports nothing for any descriptor.
- `recv` stores at most the size of the buffer it is given, and so does the driver.
- A script is not restricted any further. In particular the listener may report a
  hang-up or an error, which makes the loop close slot 0; the results say what is lost
  then (`LostListener`, `AcceptedExactly`, `SignalAtEnd`).

The variable `statusReturnedFromFcs` is read uninitialised after a failed certificate
call; its value is part of the environment's outcome (`Outcome.garbage`), never assumed.
Shifts that overflow `int` are taken as two's complement wrap-around.

Where the code and its comments disagree the code is followed: the certificate request
is the whole low byte of its word (mask `0xFF`), not five bits.

## Model

| member | source | states |
|---|---|---|
| Bits.MaskValue | FCSFilter/src/CommandHeader.cpp:74 | for widths below 32 the mask computed through signed int is 2^n - 1 |
| Bits.AndMask | FCSFilter/src/CommandHeader.cpp:75 | masking keeps the value modulo 2^n |
| Bits.OrDisjoint | FCSFilter/src/CommandHeader.cpp:85-87 | or-ing into cleared low bits adds |
| Utils.SignedSum | FCSFilter/src/utils.h:54-57 | the signed intermediate sum never overflows and converts to the unsigned value, also with the top byte at least 0x80 |
| Utils.WordByBytes | FCSFilter/src/utils.h:54-57 | a word is decoded from four bytes exactly if they are its base-256 digits, least significant first |
| Utils.DecodeFromLittleEndianBuffer | FCSFilter/src/utils.h:47-58 | returns the value whose digits are the four bytes at the offset, least significant first, or throws exactly when the buffer is too small |
| Utils.EncodeToLittleEndianBuffer | FCSFilter/src/utils.h:60-71 | stores the four digits of the value in place, least significant first, and changes nothing else, or throws and changes nothing |
| Utils.StoreThenLoad | FCSFilter/src/utils.h:47-71 | decode inverts encode at the same offset; every other byte is unchanged |
| Utils.WordBufferFromByteBuffer | FCSFilter/src/utils.h:73-86 | the words of the buffer, or throws exactly when its size is not a multiple of 4 |
| Utils.ByteBufferFromWordBuffer | FCSFilter/src/utils.h:88-95 | never throws; the output holds exactly the bytes of the words whatever it held before |
| Utils.WordAt | FCSFilter/src/utils.h:81-84 | the k-th word is decoded from bytes 4k to 4k + 3 |
| Utils.BytesAt | FCSFilter/src/utils.h:91-94 | bytes 4k to 4k + 3 are the digits of the k-th word |
| Utils.WordsThenBytes | FCSFilter/src/utils.h:73-95 | bytes to words to bytes is the identity for every size that is a multiple of 4 |
| Utils.BytesThenWords | FCSFilter/src/utils.h:73-95 | words to bytes to words is the identity for every length |
| Utils.ByteBufferFromWordPointer | FCSFilter/src/utils.h:97-104 | the bytes of the first inputSize words |
| Utils.WriteToWordPointerFromByteBuffer | FCSFilter/src/utils.h:106-115 | writes the words and returns their number, touching no word past it; throws exactly on a ragged or too large input and then writes nothing |
| Utils.PointerRoundTrip | FCSFilter/src/utils.h:97-115 | writing through the pointer and reading the returned size back restores the bytes |
| Headers.CommandHeader.ReadBits | FCSFilter/src/CommandHeader.cpp:72-78 | the source modulo 2^n, and the source divided by 2^n |
| Headers.CommandHeader.WriteBits | FCSFilter/src/CommandHeader.cpp:80-88 | the destination times 2^n plus the source modulo 2^n, wherever the destination leaves n bits of room |
| Headers.WrittenValue | FCSFilter/src/CommandHeader.cpp:80-88 | a write appends the value modulo 2^n below the bits in use, and stays within the bits counted |
| Headers.StackLaw | FCSFilter/src/CommandHeader.cpp:72-88 | any fields written into free room are read back in reverse, reduced to their widths, with what lay beneath untouched |
| Headers.UnstackLaw | FCSFilter/src/CommandHeader.cpp:72-88 | writing back what was read, over what was left, restores any word |
| Headers.PackIsLayout | FCSFilter/src/CommandHeader.cpp:60-70 | the six writes give the documented bit layout |
| Headers.UnpackIsFieldsAt | FCSFilter/src/CommandHeader.cpp:50-58 | the six reads take each field from its place in the layout |
| Headers.UnpackPack | FCSFilter/src/CommandHeader.cpp:38-70 | parse of encode is the header with each field reduced to its width |
| Headers.PackUnpack | FCSFilter/src/CommandHeader.cpp:50-70 | toUint32 of fromUint32 is the word, for all 2^32 words |
| Headers.HeaderByBytes | FCSFilter/src/CommandHeader.cpp:38-58 | client and id are the halves of byte 3, the length is spread over bytes 2 and 1, the code over bytes 1 and 0 |
| Headers.CommandHeader.FromUint32 | FCSFilter/src/CommandHeader.cpp:50-58 | assigns the six fields found in the layout |
| Headers.CommandHeader.ToUint32 | FCSFilter/src/CommandHeader.cpp:60-70 | the layout of the six fields |
| Headers.CommandHeader.Parse | FCSFilter/src/CommandHeader.cpp:38-42 | fields of the first word, or throws and changes nothing when there are fewer than 4 bytes |
| Headers.CommandHeader.Encode | FCSFilter/src/CommandHeader.cpp:44-48 | overwrites the first 4 bytes with the layout, or throws when there is no room |
| Protocol.VerifierProtocol.ParseMessage | FCSFilter/src/VerifierProtocol.cpp:37-77 | never throws; success, header, payload and error code are the parse function's |
| Protocol.VerifierProtocol.GetPayloadOffset | FCSFilter/src/VerifierProtocol.cpp:79-90 | 8 for the three commands with a reserved word, else 4 |
| Protocol.VerifierProtocol.IsPayloadSizeCorrect | FCSFilter/src/VerifierProtocol.cpp:92-102 | agrees with the size table where the command has an entry; sets the error otherwise |
| Protocol.VerifierProtocol.IsMagicWordCorrect | FCSFilter/src/VerifierProtocol.cpp:104-119 | checks the magic of teardown requests only; throws exactly on a teardown payload without a word |
| Protocol.VerifierProtocol.PrepareResponseMessage | FCSFilter/src/VerifierProtocol.cpp:128-165 | terminates, never throws, and leaves exactly header and payload whatever the buffer held before |
| Protocol.VerifierProtocol.PrepareEmptyResponseMessage | FCSFilter/src/VerifierProtocol.cpp:121-126 | leaves exactly a header |
| Protocol.VerifierProtocol.GetSigmaTeardownSessionId | FCSFilter/src/VerifierProtocol.cpp:172-187 | the second payload word; throws exactly for another command or a short payload |
| Protocol.VerifierProtocol.GetCertificateRequest | FCSFilter/src/VerifierProtocol.cpp:189-204 | the first payload byte; throws exactly for another command or a short payload |
| RequestGrammar.ParsePrinted | FCSFilter/src/VerifierProtocol.cpp:37-119 | every well-formed request, printed, parses to its header and payload, from any prior object state |
| RequestGrammar.ReadPrinted | FCSFilter/src/VerifierProtocol.cpp:37-119 | reading a printed request gives it back: code, payload, session id, certificate request, reserved parts |
| RequestGrammar.PrintRead | FCSFilter/src/VerifierProtocol.cpp:37-119 | every accepted message is the printed form of a well-formed request |
| RequestGrammar.AcceptedIffPrinted | FCSFilter/src/VerifierProtocol.cpp:37-77 | parsing succeeds if and only if the message is a printed well-formed request |
| RequestGrammar.RequestByBytes | FCSFilter/src/VerifierProtocol.h:49-59 | a printed request byte by byte, with the numbers of the commands |
| RequestGrammar.ErrorOfParse | FCSFilter/src/VerifierProtocol.cpp:39-119 | error 0x80 exactly for a well-framed teardown with another magic than a4 e2 52 b8, 0x04 for every other rejection |
| RequestGrammar.AcceptedSize | FCSFilter/src/VerifierProtocol.cpp:47-70 | accepted messages have at most 8192 bytes, payloads at most 8188 and whole words |
| RequestGrammar.CutOrExtendedRejected | FCSFilter/src/VerifierProtocol.cpp:47-57 | an accepted message cut short or extended is rejected |
| FcsCommunication.SendIoctl | FCSFilter/src/FcsCommunication.cpp:47-67 | logs a failed open, or an open and one ioctl, and nothing else; the device is closed on every path that opened it |
| FcsCommunication.GetChipId | FCSFilter/src/FcsCommunication.cpp:69-89 | low word then high word and the status, or nothing changed |
| FcsCommunication.SigmaTeardown | FCSFilter/src/FcsCommunication.cpp:91-105 | passes the session id, returns the status, or leaves it as it was |
| FcsCommunication.CreateAttestationSubkey | FCSFilter/src/FcsCommunication.cpp:107-131 | the buffer trimmed to a claimed size of at most 820, else failure with the status untouched |
| FcsCommunication.GetMeasurement | FCSFilter/src/FcsCommunication.cpp:133-157 | the buffer trimmed to a claimed size of at most 4092, else failure with the status untouched |
| FcsCommunication.GetAttestationCertificate | FCSFilter/src/FcsCommunication.cpp:159-181 | the buffer trimmed to a claimed size of at most 4096, else failure with the status untouched |
| FcsCommunication.MailboxGeneric | FCSFilter/src/FcsCommunication.cpp:183-209 | the same for 4092, with both sizes reduced to 16 bits |
| MessageHandler.HandleIncomingMessage | FCSFilter/src/MessageHandler.cpp:39-132 | no exception for any message and driver outcome; response and driver call are the handler function's; without a call the kernel is untouched, with one it logs one open and, if that succeeds, one ioctl; no response leaves the buffer alone |
| HandlerProperties.CallOfMessage | FCSFilter/src/MessageHandler.cpp:44-121 | accepted messages make exactly the call of the request they print, by command number, with no size lost to narrowing; rejected and unknown ones make none |
| HandlerProperties.CallArguments | FCSFilter/src/VerifierProtocol.cpp:172-204 | for code 0xd5 the session id has bytes 12-15 as its digits, for code 0x181 the certificate request is byte 4 |
| HandlerProperties.ResponseReadsBack | FCSFilter/src/VerifierProtocol.cpp:128-165 | a response reads back as its header with the code modulo 2048, then the payload if it is whole words |
| HandlerProperties.StatusVisible | FCSFilter/src/VerifierProtocol.cpp:128-154 | the client reads the status itself exactly for 0 to 2047; two statuses give the same response exactly when equal modulo 2048 |
| HandlerProperties.EveryResponseWellFramed | FCSFilter/src/MessageHandler.cpp:43-131 | every response has 4 + 4 * length bytes, at most 4100, reserved bits 0, and the client and id of the message (0 below four bytes) |
| HandlerProperties.RejectedResponse | FCSFilter/src/MessageHandler.cpp:44-50 | a rejected message gets a bare header with code 0x80 for a wrong magic, else 0x04, and reaches no driver |
| HandlerProperties.OverlongRejected | FCSServer/src/TcpServer.cpp:152-166 | a message over 8192 bytes, so one that fills the receive buffer, gets a bare header with code 0x04 |
| HandlerProperties.ResponseOfRequest | FCSFilter/src/MessageHandler.cpp:52-131 | the exact response to every request: claimed bytes and status, generic error, unknown command, or silence |
| HandlerProperties.ResponseOfMessage | FCSFilter/src/MessageHandler.cpp:43-131 | the exact response to any message, accepted or not |
| HandlerProperties.SilenceExactly | FCSFilter/src/MessageHandler.cpp:92-129 | no response exactly for an accepted known command whose call failed, save a certificate request whose unset status holds -1 |
| HandlerProperties.ReservedIgnored | FCSFilter/src/VerifierProtocol.cpp:79-90 | requests that differ in reserved bits, words and unused bytes only are handled alike |
| ConnectionLog.PhaseExplains | FCSServer/src/TcpServer.cpp:150-187 | a log the connection automaton accepts sends the handler's nonempty results in order and nothing after an empty one |
| TcpServers.TcpServer.Setup | FCSServer/src/TcpServer.cpp:109-114 | the listener in slot 0, armed; every other slot free |
| TcpServers.TcpServer.Run | FCSServer/src/TcpServer.cpp:49-75 | the state after any number of rounds is the run function's |
| TcpServers.TcpServer.CloseSockets | FCSServer/src/TcpServer.cpp:117-127 | closes every client in use, then the listener, without clearing the table |
| TcpServers.TcpServer.DropUnusedConnections | FCSServer/src/TcpServer.cpp:129-140 | closes and frees every client slot in use |
| TcpServers.TcpServer.HandleEventIfAny | FCSServer/src/TcpServer.cpp:142-193 | accept, serve, close or nothing, by equality with the reported events |
| TcpServers.TcpServer.AcceptConnection | FCSServer/src/TcpServer.cpp:195-214 | fills the first free client slot; does nothing when there is none |
| TcpServers.TcpServer.CloseConnectionAndEnableForReuse | FCSServer/src/TcpServer.cpp:216-222 | closes the slot's descriptor and frees the slot |
| TcpServers.FirstFree | FCSServer/src/TcpServer.cpp:197-199 | the least free slot from an index on, or the table size if all are taken |
| ScanSteps.ClientVisited | FCSServer/src/TcpServer.cpp:142-193 | a visit to a client logs exactly the block of its event, closes its own slot and descriptor if the block ends in a close, and moves nothing else |
| ScanSteps.ClientVisitKeepsInv | FCSServer/src/TcpServer.cpp:142-193 | a visit to any client keeps table, descriptors, connections and every connection's phase consistent |
| ServerRuns.ScanIsAsReported | FCSServer/src/TcpServer.cpp:51-73 | a scan logs exactly what poll reported, each block about the connection its slot held when poll returned |
| ServerRuns.ActionsWereReported | FCSServer/src/TcpServer.cpp:142-193 | every read, send and close of a scan is about a connection with a reported event |
| ServerRuns.NewConnectionUntouched | FCSServer/src/TcpServer.cpp:195-213 | a connection accepted in a scan is not read, answered or closed in it |
| ServerRuns.RoomExactly | FCSServer/src/TcpServer.cpp:195-213 | a free slot exists exactly when fewer than 20 connections are open |
| ServerRuns.TimeoutDropsAll | FCSServer/src/TcpServer.cpp:63-67 | a timeout closes every connection ever accepted and leaves at most the listener open |
| ServerRuns.SignalClosesAll | FCSServer/src/TcpServer.cpp:117-127 | a signal leaves nothing open; no descriptor is closed twice exactly if the listener was still held |
| ServerRuns.RunKeepsInv | FCSServer/src/TcpServer.cpp:49-75 | the invariant holds after any rounds, and slot 0 keeps the listener exactly while it reported no hang-up or error |
| RunTheorems.SetupStarts | FCSServer/src/TcpServer.cpp:109-114 | setup establishes the invariant with the listener armed in slot 0 |
| RunTheorems.DescriptorConservation | FCSServer/src/TcpServer.cpp:195-222 | after any rounds the open descriptors are exactly the table's: at most 20 distinct clients, plus the listener exactly if it stayed healthy; no call used a closed descriptor |
| RunTheorems.ConservationWithinScan | FCSServer/src/TcpServer.cpp:68-74 | the same wherever a scan after any rounds has got to, from before slot 0 to after slot 20 |
| RunTheorems.ConservationWithinTimeout | FCSServer/src/TcpServer.cpp:129-140 | the same wherever the dropping of connections has got to |
| RunTheorems.TimeoutAtEnd | FCSServer/src/TcpServer.cpp:129-140 | a timeout after any rounds leaves exactly the healthy listener open and every connection closed |
| RunTheorems.SignalAtEnd | FCSServer/src/TcpServer.cpp:117-127 | a signal after any rounds leaves nothing open; every close hit an open descriptor exactly if the listener stayed healthy |
| RunTheorems.LostListener | FCSServer/src/TcpServer.cpp:189-192 | once the listener reported a hang-up or an error no connection is ever accepted again |
| RunTheorems.AcceptedExactly | FCSServer/src/TcpServer.cpp:144-149 | a scan after any rounds accepts exactly one connection if the listener was never lost and reports exactly POLLIN, one is waiting and fewer than 20 are open, and none otherwise |
| RunTheorems.ReportsArrive | FCSServer/src/TcpServer.cpp:51-57 | in every round of every run each slot in use receives what is reported for it |
| RunTheorems.SequentialService | FCSServer/src/TcpServer.cpp:68-74 | on every connection of every run the buffers sent are the nonempty handler results on its messages, in order; an empty one is the last and closes it |
| Conversations.ConversationOfSlot | FCSServer/src/TcpServer.cpp:150-192 | from any point of any run on, the log's entries about a connection are the handler's exchanges with the inputs to its own slot, up to the first close |
| Conversations.ConversationFromAccept | FCSServer/src/TcpServer.cpp:195-213 | all a run ever logs about a connection is its acceptance into the first free slot and the exchanges with that slot's inputs in later rounds |
| Conversations.Noninterference | FCSServer/src/TcpServer.cpp:152-187 | equal inputs to two slots, in any two runs and states, give equal conversations, whatever happens in the other slots |
| Conversations.RequestDelivered | FCSServer/src/TcpServer.cpp:152-154 | the receive buffer holds every well-formed request whole |
| Conversations.FullBufferRejected | FCSServer/src/TcpServer.cpp:152-166 | a delivery that fills the receive buffer is answered with a bare header of code 0x04 and reaches no driver |
| Conversations.MessageInRun | FCSServer/src/TcpServer.cpp:152-187 | any message on any connection of any run is received and then answered as the grammar says, or followed by the close if the reaction is silence |
| Conversations.RequestInRun | FCSServer/src/TcpServer.cpp:152-187 | any well-formed request in any run arrives whole and gets the reaction to its command and outcome |
| Conversations.SilentAfterClose | FCSServer/src/TcpServer.cpp:216-222 | after its close nothing is logged about a connection, whoever reuses its slot and descriptor |
| PartialRounds.TimeoutIsHangUps | FCSServer/src/TcpServer.cpp:129-140 | slot by slot a timeout leaves the kernel and the descriptors as a hang-up of every client does |
| RunTheorems.BufferHistoryIrrelevant | FCSServer/src/TcpServer.cpp:152-166 | no run depends on what the shared message buffer held |
| RunTheorems.EverySendWellFramed | FCSServer/src/TcpServer.cpp:171-181 | every buffer ever sent is well framed and answers a message received on that connection |
| RunTheorems.DriverSeesRequests | FCSFilter/src/MessageHandler.cpp:55-121 | in every run the driver log is, in order of reception, one open, and one ioctl if it succeeds, for each message that is a known request, with the request's own arguments |
| RunTheorems.Serve | FCSServer/src/TcpServer.cpp:42-76 | the classes, run from setup through any script, leave the kernel of the run function; its log answers every connection as the handler does and calls the driver by the grammar |

## Left out

- Sockets, `poll`, `recv`, `send`, `open` and `ioctl` themselves: they are the environment's answers described above.
- Failure exits of setup, bind and listen, and command line handling: operating system plumbing.
- Partial sends, blocking and signals raised by `send`: the buffer handed to `send` is what is modelled.
- Signals inside a step: a termination signal is taken between rounds only, since the code gives no atomicity inside a step.
- Logging, memory exhaustion, and structures of the driver interface that the server does not use.
- The endless loop: `Run` takes a finite script, so results are about every finite prefix of a run.
- Reference parameters: the handler is given the bytes of the message buffer by value, because it never writes to it; response and output buffers are passed as objects and updated in place.
