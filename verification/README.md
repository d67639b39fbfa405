# Smolweb protocol engines, verified

Dafny models of five small protocol engines: Guppy, FSP, Misfin, DICT and Scorpion.
`dafny verify dfyconfig.toml` checks the whole project.

| files | what they model |
|---|---|
| `GuppyPacket`, `GuppySession`, `GuppyServer`, `GuppyClient`, `GuppyService` | the Guppy wire forms, the send window, the server's session table, the client's receive loop, and what one answers the other in bytes |
| `GuppyRun`, `GuppyWindow` | one fetch over an unreliable network as a transition system: safety of every run, and the send window in every reachable state |
| `GuppyLoad`, `GuppyProgress`, `GuppyRecovery` | how soon a fetch completes, within which size limit, and exactly which failed local sends it survives |
| `FspWire`, `FspClient`, `FspReplies` | FSP packets, checksum and directory blocks; the stop-and-wait session and the block-by-block file loop, also over replies as servers encode them |
| `MisfinAddress`, `MisfinMailbox`, `MisfinServer`, `MisfinRuns` | Misfin addresses, the mailbox store, the request handler, and concurrent deliveries as interleaved transactions |
| `DictWire`, `DictClient`, `DictReplies`, `DictServer` | DICT status lines, quoting and dot-stuffing; a session over one stream, against each reply of the RFC; the line-reading server at its other end |
| `ScorpionDocument`, `ScorpionRequest` | Scorpion's binary block format and its request line |
| `Text`, `Decimal`, `Octets` | trimming and splitting, decimal numbers, big-endian numbers |

How it is built:

- Code that updates fields or runs loops is a class or a method, and each such method is
  proved equal to a function of the old state; the laws are lemmas about those functions.
- A network is the set of datagrams ever sent each way. A datagram in it may arrive any
  number of times, in any order, or never.
- Time is a number of milliseconds given to each step; a step's failures (a local send, a
  storage transaction, a receive) are inputs, so every schedule of failures is covered.
- The Guppy machine leaves out one thing by assumption: a session reaching its overall
  timeout while its client still runs. Done sessions lingering out are in.
- A client whose own size limit is too small for the response gives up, and the completion
  bounds say exactly when that is excluded: the bytes taken and the response within the limit.

Where the code and its documentation differ, the model follows the code:

- `random_seq` says it draws up to and including `MAX_SEQ - total_packets`
  (crates/guppy-protocol/src/server.rs:252-253); the span of the draw excludes that value.
- `RDTYPE_SKIP` is described as padding to skip before reading on
  (crates/fsp-protocol/src/wire.rs:256); the walk stops there.

Laws that hold only under a condition, with the condition exact:

- a Guppy MIME type survives if and only if it is trimmed, non-empty and free of CRLF;
- a Guppy fetch survives failed local sends of its server if and only if the first send of
  the response succeeded (`CompletesIffFirstWasSent`);
- a DICT command reaches a line-reading server as one line if and only if no word of it
  holds an LF (`LinesAreCommands`, with `WordWithLfIsTwoCommands`);
- an FSP checksum misses a single changed octet exactly in the two cases of
  `SingleOctetChange`, and a direction exactly when `DirectionBlind`;
- trust on first use needs `reject_changed_sender` (`LetThroughWithoutRejection`);
- a DICT text line survives stuffing if and only if it does not end in CR;
- a Scorpion block survives encoding if and only if it is canonical.

## Model

| member | source | states |
|---|---|---|
| GuppyRun.EndToEndSafety | crates/guppy-protocol/src/client.rs:219-266 | In every run over a losing, duplicating, reordering network, with repeated requests, failing local sends of the server and done sessions lingering out: a success the client returns is what the first response built reads as, that response was readable, and the success equals its MIME type and body exactly if and only if the MIME type is trimmed, non-empty and free of CRLF; the response was a handler's answer in the run |
| GuppyRun.AckAgreement | crates/guppy-protocol/src/server.rs:284-300 | In every reachable state, however many responses were built, every number the server counts as acknowledged was received by the client (timeout re-acknowledgements included); a second response is built only once the client has returned; for the response the client is after, a done session means it holds every chunk and the end and has returned |
| GuppyRun.StepKeepsInv | crates/guppy-protocol/src/server.rs:110-188 | Every action of server, client and network keeps the invariant linking datagrams in flight, session and reassembly |
| GuppyRun.ExpectedIsExact | crates/guppy-protocol/src/packet.rs:72-77 | What a client makes of a response equals what was built if and only if the MIME type is well formed |
| GuppyRun.BuildsComeFromAnswers | crates/guppy-protocol/src/server.rs:168-173 | Every response built in a run was given by the handler in answer to a request of that run |
| GuppyProgress.CompletionBound | crates/guppy-protocol/src/server.rs:302-315 | From any reachable state with a readable response under way and a full window, whatever local sends failed before: rounds at any due times before the session expires can all take place, and once rounds times window covers the number of packets the client has returned; with the response, unless the bytes it had taken and the whole response exceed its size limit |
| GuppyProgress.RoundAdvances | crates/guppy-protocol/src/server.rs:267-315 | A due round with something in flight (a retransmission arriving in order, and all its acknowledgements) ends with the client returned, or with all that was in flight acknowledged and a full window; from a full window that is exactly min(window, remaining) packets |
| GuppyWindow.RunLeavesWindow | crates/guppy-protocol/src/server.rs:267-300 | In every run no more is in flight than the window allows, whichever local sends fail; where none fails the window is exactly full in every state |
| GuppyWindow.WindowOverRuns | crates/guppy-protocol/src/server.rs:267-315 | In every reachable state of a run whose local sends succeed, packets in flight = min(window, packets - acknowledged), and a session is not done if and only if something is in flight |
| GuppyWindow.AckFillsWindow | crates/guppy-protocol/src/server.rs:284-300 | Any acknowledgement, stray ones included, with sends that succeed leaves the window exactly full whatever failed before |
| GuppyRecovery.CompletesIffFirstWasSent | crates/guppy-protocol/src/server.rs:273-300 | Where the times and the size limit allow completion at all, some continuation of a reachable fetch returns the response if and only if the first local send of the response succeeded |
| GuppyRecovery.FirstSendFailedIsForGood | crates/guppy-protocol/src/server.rs:273-281 | If none of the response was sent, no continuation at all, of any reachable state with its client waiting, returns a success |
| GuppyRecovery.CompletionAfterFailures | crates/guppy-protocol/src/server.rs:291-315 | If at least the first packet was sent, whatever local sends failed since, one silence of the client or one round, and then rounds enough to cover the packets, bring the client to return; with the response, unless the size limit is exceeded |
| GuppyProgress.NotAllAcked | crates/guppy-protocol/src/client.rs:142-144 | While the client waits the session is not done and a packet is unacknowledged; with a full window one is in flight |
| GuppyProgress.PartArrives | crates/guppy-protocol/src/client.rs:232-266 | A packet of the response that arrives at a client that has started, or that it starts, is held and acknowledged, and adds at most its payload to the bytes taken |
| GuppySession.BuildPackets | crates/guppy-protocol/src/server.rs:216-250 | The packet vector filled by the loop is the closed form: first packet, one continuation per further chunk, the empty end-of-file packet |
| GuppyServer.ResponseShape | crates/guppy-protocol/src/server.rs:216-264 | As many packets as predicted, consecutive numbers inside [MIN_SEQ, MAX_SEQ]; payloads join to the body, none over the chunk size; only the last continuation is empty |
| GuppySession.CountAsPredicted | crates/guppy-protocol/src/server.rs:220-225 | The number of chunks and the end-of-file packet is the number predicted before building |
| GuppyService.FirstNumbersDrawn | crates/guppy-protocol/src/server.rs:252-264 | Exactly the numbers from 6 up to, and not including, MAX_SEQ - total can be drawn |
| GuppySession.ChunksCoverBody | crates/guppy-protocol/src/server.rs:228-240 | The chunks join to the body; every chunk after the first is non-empty and none exceeds the chunk size |
| GuppySession.WindowInvariant | crates/guppy-protocol/src/server.rs:267-315 | After every acknowledgement and every retransmission, packets in flight = min(window, packets - acknowledged) exactly |
| GuppySession.NewSessionFillsWindow | crates/guppy-protocol/src/server.rs:267-282 | The first opening puts min(window, packets) in flight |
| GuppySession.StrayAckChangesNothing | crates/guppy-protocol/src/server.rs:291-299 | With a full, non-empty window an acknowledgement of a number not in flight changes nothing but the retransmission timer and sends nothing |
| GuppySession.NothingInFlightMeansAllAcked | crates/guppy-protocol/src/server.rs:293-299 | With a full, non-empty window a session is not done if and only if something is in flight, and nothing is in flight if and only if everything is acknowledged |
| GuppySession.FailedSendStalls | crates/guppy-protocol/src/server.rs:273-280 | If the first local send of an opening fails, nothing is in flight, all packets remain, and a retransmission sends none; over runs see FirstSendFailedIsForGood |
| GuppySession.RetransmissionSilence | crates/guppy-protocol/src/server.rs:302-315 | A retransmission is empty exactly when nothing is in flight |
| GuppySession.Session.OpenWindow | crates/guppy-protocol/src/server.rs:267-282 | Sends unsent packets until the window is full, none is left or a local send fails; the whole new state and what is sent |
| GuppySession.Session.Acknowledge | crates/guppy-protocol/src/server.rs:284-300 | Removes the number, marks the session done once when all is acknowledged, otherwise refills the window |
| GuppySession.Session.Retransmit | crates/guppy-protocol/src/server.rs:302-315 | Sends the wire bytes of exactly the packets in flight in sequence order; every binary search finds its packet |
| GuppySession.BinarySearch | crates/guppy-protocol/src/server.rs:307-310 | Finds the packet with the number, or none has it |
| GuppyServer.Server.Receive | crates/guppy-protocol/src/server.rs:138-186 | One datagram changes its sender's session alone: size limit, malformed datagrams, acknowledgements, ignored repeats, the session limit and every kind of answer |
| GuppyServer.Server.Open | crates/guppy-protocol/src/server.rs:164-184 | A request without a session opens one for a success and sends one special packet otherwise |
| GuppyServer.Server.Tick | crates/guppy-protocol/src/server.rs:113-129 | A tick drops the expired and the lingered, retransmits for each kept session that is due, and leaves the others alone |
| GuppyServer.TickOnTheClock | crates/guppy-protocol/src/server.rs:113-129 | A session is dropped if and only if now is past its creation and the timeout, or it is done and more than five seconds have passed; a kept one that is not done has everything in flight sent again and its timer set if and only if the retransmission time has passed since it last sent |
| GuppyService.RequestIsServed | crates/guppy-protocol/src/server.rs:154-184 | A request line of at most 2048 bytes is ignored while a session is live or the table is full; otherwise each kind of answer goes out in its own bytes, and a success opens with the first packets, as many as the window and the sends that succeed allow |
| GuppyService.JunkIsIgnored | crates/guppy-protocol/src/server.rs:138-147 | Over 2048 bytes, or without a line end, a datagram draws nothing and changes nothing |
| GuppyService.SpecialAnswerIsReturned | crates/guppy-protocol/src/client.rs:219-231 | A client that has not started returns a prompt, a redirect or an error as that same kind with the text as read; one that has started ignores it |
| GuppyService.TextAsRead | crates/guppy-protocol/src/packet.rs:39-48 | The text read is the text sent if and only if that is trimmed and one line |
| GuppyService.SilenceSends | crates/guppy-protocol/src/client.rs:192-207 | A silence repeats the request, or acknowledges the stall point and, once known, the end |
| GuppyService.FirstCopyIsKept | crates/guppy-protocol/src/client.rs:134-136 | Whatever arrives, a chunk once held is never replaced |
| GuppyService.LaterPacketIsTaken | crates/guppy-protocol/src/client.rs:250-266 | A later packet draws its acknowledgement and is held, or marks the end; one numbered no higher than the first is ignored |
| GuppyServer.ServerKeepsValid | crates/guppy-protocol/src/server.rs:79-91 | Unacknowledged numbers are always of packets already sent, and a session is marked done exactly when all is sent and acknowledged |
| GuppyPacket.FirstRoundTrip | crates/guppy-protocol/src/packet.rs:30-77 | A first packet parses back exactly if and only if its MIME type is well formed and its number is not 1, 3 or 4 |
| GuppyPacket.FirstReading | crates/guppy-protocol/src/packet.rs:39-61 | What any first packet parses to, whatever its MIME text and payload: one reading, or the empty-MIME error |
| GuppyPacket.ContinuationRoundTrip | crates/guppy-protocol/src/packet.rs:62-84 | Every continuation parses back exactly, CRLFs in its payload included |
| GuppyPacket.AckRoundTrip | crates/guppy-protocol/src/packet.rs:87-111 | Every encoded acknowledgement parses as that acknowledgement |
| GuppyPacket.RequestIsNotAck | crates/guppy-protocol/src/packet.rs:98-111 | No line starting with guppy: parses as an acknowledgement |
| GuppyPacket.SpecialReading | crates/guppy-protocol/src/packet.rs:39-48 | A prompt, redirect or error packet parses as that kind, never as part of a success |
| GuppyPacket.SpecialOnlyByDigit | crates/guppy-protocol/src/packet.rs:24-48 | Only the literal digits 1, 3 and 4, alone before a space, make a prompt, a redirect or an error |
| GuppyPacket.LargeNumbersFail | crates/guppy-protocol/src/packet.rs:62-67 | Numbers of 2^32 and more are neither sequence numbers nor acknowledgements |
| GuppyPacket.PaddedNumber | crates/guppy-protocol/src/packet.rs:62-66 | Whitespace about a bare number, other than a blank, is passed over |
| GuppyClient.Transact | crates/guppy-protocol/src/client.rs:158-269 | The receive loop over any series of silences and datagrams: where it stands and all it has sent |
| GuppyClient.Take | crates/guppy-protocol/src/client.rs:219-267 | What one packet does to the reassembly, and the acknowledgement it draws |
| GuppyClient.Handle | crates/guppy-protocol/src/client.rs:187-217 | Silence repeats the request or re-acknowledges the stall point and the end; malformed packets are ignored |
| GuppyClient.CheckHead | crates/guppy-protocol/src/client.rs:176-185 | Completion is decided before the size limit |
| GuppyClient.Reassembly.Insert | crates/guppy-protocol/src/client.rs:134-140 | Keeps the first copy of a chunk, counts every copy, extends the contiguous end as far as it goes |
| GuppyClient.Reassembly.IntoResponse | crates/guppy-protocol/src/client.rs:146-155 | The body is the chunks joined in order of their numbers |
| GuppyClient.BufferAccounting | crates/guppy-protocol/src/client.rs:132-185 | For any readings: buffered counts every payload byte of data packets taken, duplicates again, covers the bytes held, and is within the limit whenever the client waits |
| GuppyClient.ReturnedBodyBound | crates/guppy-protocol/src/client.rs:175-185 | No returned body exceeds the limit plus one receive buffer |
| GuppyClient.HeldWithinLimit | crates/guppy-protocol/src/client.rs:134-185 | Bytes held never exceed the limit plus the largest payload |
| GuppyClient.CompletionBeatsLimit | crates/guppy-protocol/src/client.rs:176-185 | A body over the limit by a whole last chunk is returned: the limit alone is not a bound |
| GuppyClient.BodyOfRange | crates/guppy-protocol/src/client.rs:146-155 | Chunks under consecutive numbers join in that order |
| Decimal.ParseOfPrint | crates/guppy-protocol/src/packet.rs:64-66 | Printing a number and parsing it under a type limit gives it back, and fails at or above the limit |
| Decimal.ParseOfPadded | crates/guppy-protocol/src/packet.rs:50-52 | Leading zeros and one leading plus are allowed in a number |
| Decimal.ParsedIsDigits | crates/guppy-protocol/src/packet.rs:50-52 | Whatever parses as a number is digits after at most one plus |
| Text.TrimTakesWhitespace | crates/guppy-protocol/src/packet.rs:53-58 | Trimming takes the whitespace at both ends and nothing else |
| FspClient.FileTransfer | crates/fsp-protocol/src/client.rs:116-130 | Over any network that keeps no reply for 65536 requests: a file returned is the server's file, whole, after exactly len/1024 + 1 logical requests, and is under 2^32 bytes |
| FspClient.FileTransferCompletes | crates/fsp-protocol/src/client.rs:116-200 | Where every request has one answer come through within its attempts and none refused, the whole file is returned |
| FspReplies.FileArrives | crates/fsp-protocol/src/client.rs:116-225 | On a network that only loses, delays, repeats and reorders undamaged replies, one answer to each request getting through within its attempts is enough for the whole file |
| FspReplies.EncodedReplyIsTaken | crates/fsp-protocol/src/client.rs:204-225 | An undamaged reply of up to 2048 octets of data and extra is taken whole by the request it echoes, and by no other |
| FspReplies.RequestOnTheWire | crates/fsp-protocol/src/client.rs:168-182 | The octets of a block request: code 0x42, the session's key, the next number, the length and offset, and the path with its NUL |
| FspReplies.RequestsDiffer | crates/fsp-protocol/src/client.rs:228-232 | Different paths and different offsets make different requests |
| FspReplies.ReplyIsResult | crates/fsp-protocol/src/client.rs:190-197 | A reply of type 0x40 refuses with its data less the NULs at its end; any other is the result; either key is kept |
| FspReplies.RequestFails | crates/fsp-protocol/src/client.rs:184-199 | A timeout when every attempt is silent, an I/O error when a send or receive fails first; the number is spent and the key stays |
| FspClient.HugeFileNeverEnds | crates/fsp-protocol/src/client.rs:119 | For a file of 2^32 bytes or more the offset wraps and no transfer ends well |
| FspClient.EveryRequestCarriesTheLastKey | crates/fsp-protocol/src/client.rs:162-197 | The first request carries the session's key, each later one the key of the reply accepted before it; however the transfer ends, the session keeps the key of the last reply, a refusal's included, or the key it sent when there was none |
| FspClient.EndsWellWhenAnswered | crates/fsp-protocol/src/client.rs:116-130 | A transfer ends well if and only if every request was answered and none refused |
| FspClient.RetriesSurviveLoss | crates/fsp-protocol/src/client.rs:184-199 | One matching reply within the attempts is enough, whatever else arrives |
| FspClient.AcceptedAnswers | crates/fsp-protocol/src/client.rs:204-225 | The reply accepted for a request answers that very request |
| FspClient.WrappedReplyIsTaken | crates/fsp-protocol/src/client.rs:168-169 | A reply exactly 65536 requests old carries the awaited number and is taken: the age limit is exact |
| FspClient.LogIsNumbered | crates/fsp-protocol/src/client.rs:168-182 | A transfer numbers its requests consecutively modulo 2^16 from where the session stood |
| FspClient.Session.AwaitReply | crates/fsp-protocol/src/client.rs:204-225 | Returns the first datagram that decodes and echoes the number, dropping the others |
| FspClient.Session.Request | crates/fsp-protocol/src/client.rs:162-200 | The outgoing packet, the reply or error, and the whole new bookkeeping, after up to the allowed attempts |
| FspClient.Session.GetFile | crates/fsp-protocol/src/client.rs:116-130 | The block loop: result, bookkeeping and the log of every logical request |
| FspWire.Checksum | crates/fsp-protocol/src/wire.rs:185-197 | The loop computes the folded 32-bit sum with octet 1 counted as zero and the direction's initial value |
| FspWire.WritePacket | crates/fsp-protocol/src/wire.rs:200-213 | The buffer written is the laid out packet with its checksum filled in |
| FspWire.PacketRoundTrip | crates/fsp-protocol/src/wire.rs:200-248 | A packet of any size decodes back to itself if and only if its header tells its data's length |
| FspWire.DecodeOfEncode | crates/fsp-protocol/src/wire.rs:236-247 | What decoding makes of any encoded packet, lying lengths included |
| FspWire.WireLayout | crates/fsp-protocol/src/wire.rs:200-213 | The twelve header octets, each number high octet first, the checksum second |
| FspWire.RefusedExactly | crates/fsp-protocol/src/wire.rs:216-241 | Too short below twelve octets, then the checksum, then the length told: each error exactly when |
| FspWire.ChecksumOfHeader | crates/fsp-protocol/src/wire.rs:185-197 | The checksum of a bare header written out in both directions |
| FspWire.OctetsRoundTrip | crates/fsp-protocol/src/wire.rs:216-248 | Whatever decodes encodes back to the same octets |
| FspWire.SingleOctetChange | crates/fsp-protocol/src/wire.rs:217-224 | Below 2^24 octets every single-octet change is refused as a bad checksum, except exactly 0x00 to 0xFF with sum mod 256 >= 1 and 0xFF to 0x00 with sum mod 256 <= 254 |
| FspWire.OtherDirectionRefused | crates/fsp-protocol/src/wire.rs:185-224 | A packet valid in one direction is refused in the other unless (len + (s+len)/256 - s/256) mod 256 = 0, and never accepted at 12 to 254 octets |
| FspWire.BlindAt255 | crates/fsp-protocol/src/wire.rs:185-197 | A 255-octet packet that reads the same in both directions |
| FspWire.ParseDirectory | crates/fsp-protocol/src/wire.rs:282-324 | The cursor walk, aligned and moving by 12 or more per entry, computes the recursive walk and ends on all octets |
| FspWire.DirectoryRoundTrip | crates/fsp-protocol/src/wire.rs:282-324 | Any list of entries with NUL-free names, laid out with padding, reads back exactly, followed by what the rest reads as |
| FspWire.TerminatedDirectory | crates/fsp-protocol/src/wire.rs:286-305 | With END, SKIP, a short tail or an unterminated name after it, exactly the list is read |
| FspWire.EntryLayout | crates/fsp-protocol/src/wire.rs:445-456 | An entry's octets: time, size, type 1 or 2, name, NUL, zeros to a multiple of four |
| FspWire.TypeOctets | crates/fsp-protocol/src/wire.rs:291-313 | Types 0 and 0x2A end the walk; types other than 1 and 2 are passed over |
| FspWire.WalkBounds | crates/fsp-protocol/src/wire.rs:286-321 | On any octets every entry read is NUL-free and n >= 1 entries need 12(n-1)+10 octets |
| FspWire.WalkNormalForm | crates/fsp-protocol/src/wire.rs:282-324 | Laying out what was read from any octets and reading it again gives the same entries |
| Octets.FromBeToBe | crates/fsp-protocol/src/wire.rs:204-207 | Big-endian octets read back as the number |
| Octets.ToBeFromBe | crates/fsp-protocol/src/wire.rs:226-231 | Any octets are the big-endian form of the number they read as |
| MisfinRuns.TrustOnFirstUse | crates/misfin/src/server.rs:176-210 | With changed senders rejected, over every interleaving of deliveries, storage failures and forgets: two messages stored under one sender address with different fingerprints have an effective forget of that address between their one identity check each |
| MisfinRuns.TrustInCertificates | crates/misfin/src/server.rs:176-210 | Two connections answered 20 whose certificates claim one address under different fingerprints have an effective forget of it between their checks |
| MisfinRuns.DeliveryWasAskedFor | crates/misfin/src/server.rs:141-174 | Every delivery of a run is exactly what a request that arrived in it asks for, from the address its certificate claims |
| MisfinRuns.LetThroughWithoutRejection | crates/misfin/src/server.rs:183 | With changed senders let through, two certificates deliver under one address with no forget |
| MisfinRuns.IndexAgreesWithLog | crates/misfin/src/mailbox.rs:133-177 | In every reachable state numbers are 0 to next-1 and each mailbox's index is the log's positions for it; a connection is answered 20 if and only if exactly one message is stored by it, its own delivery; messages are as many as replies of 20 |
| MisfinRuns.MailIsTheOwners | crates/misfin/src/mailbox.rs:263-281 | Reading an address's mail in any reachable state finds only what was delivered to that very address |
| MisfinRuns.FirstSeenIsKept | crates/misfin/src/mailbox.rs:181-199 | In every run a sender's first-seen time, once recorded, is never overwritten or lost |
| MisfinRuns.StoredSendersAreKnown | crates/misfin/src/server.rs:197-204 | In every reachable state the sender of every stored message is on record |
| MisfinRuns.UninterruptedIsDispatch | crates/misfin/src/server.rs:135-211 | A delivery whose transactions nothing interrupts is exactly one dispatch |
| MisfinRuns.StepKeepsInv | crates/misfin/src/server.rs:312-329 | Every arrival, transaction, storage failure and forget keeps tables, pins, history and connections in agreement |
| MisfinRuns.PinStays | crates/misfin/src/mailbox.rs:221-241 | A pin stays until it is effectively forgotten |
| MisfinServer.Dispatcher.Dispatch | crates/misfin/src/server.rs:135-211 | The reply and the whole new state of the store, for every request and every storage failure |
| MisfinServer.OnlyDeliveredIsStored | crates/misfin/src/server.rs:197-210 | A reply of 20 means exactly the message was added; any other reply leaves messages, index and numbering alone |
| MisfinServer.ScreenExactly | crates/misfin/src/server.rs:141-174 | A request is accepted for a delivery if and only if a certificate in date is presented, the line splits, the address is served, and an identity is claimed where required; the delivery has the text after the first space, the URL's address, the claimed sender and the certificate's fingerprint |
| MisfinServer.RefusedExactly | crates/misfin/src/server.rs:141-167 | 60, 59, 53, 51 and 62: each exactly when |
| MisfinServer.RefusalWords | crates/misfin/src/server.rs:141-167 | The words of each refusal |
| MisfinServer.ReplyExactly | crates/misfin/src/server.rs:176-210 | The reply to every accepted request: 40 where a transaction fails, 63 where the claimed address is pinned to another fingerprint and that is rejected, whatever is required of senders, 20 with the mailbox's fingerprint otherwise; and what becomes of the pins |
| MisfinServer.FindsTheFirst | crates/misfin/src/server.rs:219-223 | The mailbox found is the first one served under the address |
| MisfinServer.ScreeningIsSound | crates/misfin/src/server.rs:141-174 | An accepted delivery goes to a served mailbox, with a parsed sender, present when required |
| MisfinServer.RefusalStatus | crates/misfin/src/server.rs:141-167 | Which refusal: 60 exactly without a certificate; 51 exactly where the host is served but not the mailbox, 53 where it is not |
| MisfinServer.SplitRequestShape | crates/misfin/src/server.rs:229-235 | The target and message split at the first space past leading whitespace, under the misfin scheme, and only then |
| MisfinMailbox.MailboxStore.Store | crates/misfin/src/mailbox.rs:133-177 | Appends one message under the next number and indexes it; nothing changes on failure |
| MisfinMailbox.MailboxStore.RecordSender | crates/misfin/src/mailbox.rs:181-199 | Records a fingerprint the first time only |
| MisfinMailbox.MailboxStore.CheckAndRecordIdentity | crates/misfin/src/mailbox.rs:204-245 | Pins on first contact, and never overwrites a pin |
| MisfinMailbox.MailboxStore.ForgetSenderIdentity | crates/misfin/src/mailbox.rs:250-259 | Removes a pin and tells whether there was one |
| MisfinMailbox.MailboxStore.List | crates/misfin/src/mailbox.rs:263-281 | The storage error, or the message log filtered by recipient in order of delivery, whatever order the index yields |
| MisfinMailbox.StoringAgrees | crates/misfin/src/mailbox.rs:143-174 | Storing keeps the tables in agreement with the log |
| MisfinMailbox.InOrderUnique | crates/misfin/src/mailbox.rs:279 | A list sorted by number is determined by its members |
| MisfinAddress.AddressRoundTrip | crates/misfin/src/lib.rs:90-119 | An address's printed form parses back to it if and only if parsing can give it |
| MisfinAddress.KeysAreDistinct | crates/misfin/src/lib.rs:117-119 | Distinct parsed addresses never share a key |
| MisfinAddress.FromUrlIsParsed | crates/misfin/src/lib.rs:104-115 | An address taken from a URL is a parsed one |
| MisfinAddress.AddressIsRead | crates/misfin/src/lib.rs:90-102 | A mailbox and a host are taken as they are, the host in lower case, whitespace about them passed over |
| MisfinAddress.NoAddress | crates/misfin/src/lib.rs:92-97 | No address without an @ with something on both sides of the first |
| MisfinAddress.UrlIsRead | crates/misfin/src/lib.rs:104-115 | A URL's plain user name and host are its address; without either there is none |
| MisfinAddress.LowerLetters | crates/misfin/src/lib.rs:100 | Lower case letter by letter, A to Z only |
| DictClient.SessionStaysInStep | crates/dict-protocol/src/client.rs:105-201 | For any sequence of commands with their responses one after another on the stream, command k gets response k and nothing is left unread or read too far; over-long commands send and read nothing |
| DictServer.ClientAndServerInStep | crates/dict-protocol/src/client.rs:105-236 | With a server that reads what is sent line by line and writes one answer a line, for any commands whose words hold no LF: the client's results are those of the server's answers to its commands in turn, and it reads exactly what the server wrote |
| DictServer.LinesAreCommands | crates/dict-protocol/src/client.rs:224-236 | Reading what is sent line by line gives the command lines one for one if and only if no word of a command sent holds an LF |
| DictServer.WordWithLfIsTwoCommands | crates/dict-protocol/src/client.rs:139-146 | Words holding an LF that are accepted and sent, and that a server reads as two commands |
| DictServer.CommandIsUnderstood | crates/dict-protocol/src/client.rs:269-275 | A command on one line is understood by its server as itself |
| DictClient.CommandReadsItsResponse | crates/dict-protocol/src/client.rs:105-201 | Each command returns exactly the data of its response, or the refusal, and stops at its end whatever follows |
| DictReplies.DatabasesUnder110 | crates/dict-protocol/src/client.rs:105-118 | SHOW DB answered 110, a block and 250 gives the named databases and stops there |
| DictReplies.StrategiesUnder111 | crates/dict-protocol/src/client.rs:120-132 | SHOW STRAT answered 111, a block and 250 gives the named strategies and stops there |
| DictReplies.DefinitionsUnder150 | crates/dict-protocol/src/client.rs:139-174 | DEFINE answered 150, a 151 and a block for each definition, and 250 gives the definitions and stops there |
| DictReplies.MatchesUnder152 | crates/dict-protocol/src/client.rs:177-201 | MATCH answered 152, a block and 250 gives the matches and stops there |
| DictReplies.NothingUnder55x | crates/dict-protocol/src/client.rs:107-199 | 554, 555 and 552 give empty results in one line |
| DictReplies.OthersAreRefused | crates/dict-protocol/src/client.rs:115-199 | Any other status is a refusal with its code and text, and takes its one line |
| DictReplies.ListNeedsSuccess | crates/dict-protocol/src/client.rs:251-258 | The status after a list must be 200 to 299; any other refuses it |
| DictReplies.DefinitionsNeedSuccess | crates/dict-protocol/src/client.rs:155-172 | So must the one after the definitions; a 151 of fewer than two words is an error |
| DictReplies.NoStatus | crates/dict-protocol/src/client.rs:277-299 | A closed stream and a line that does not start with three digits |
| DictReplies.WordsOfLines | crates/dict-protocol/src/wire.rs:157-193 | A database line needs a word that is not empty, a match line two words; more are passed over |
| DictReplies.LineLimit | crates/dict-protocol/src/client.rs:225-229 | At most 1022 bytes and CRLF are sent |
| DictClient.DatabasesParse | crates/dict-protocol/src/wire.rs:157-172 | A server's quoted database lines parse to the databases that have a name, in order |
| DictClient.MatchesParse | crates/dict-protocol/src/wire.rs:182-193 | A server's quoted match lines parse to the matches |
| DictClient.DefinitionsReadIs | crates/dict-protocol/src/client.rs:153-173 | Any list of definitions, each header and text block in turn, reads back exactly up to the closing status |
| DictClient.BlockReadIs | crates/dict-protocol/src/client.rs:239-248 | A stuffed, terminated text block reads back as its lines and leaves what follows |
| DictClient.CommandLineParses | crates/dict-protocol/src/client.rs:140-146 | Splitting a whole command line gives its keyword and the very words asked for |
| DictClient.Session.Command | crates/dict-protocol/src/client.rs:224-236 | Sends the line and reads one status, unless line and CRLF exceed 1024 bytes, when it does neither |
| DictClient.Session.ReadTextBlock | crates/dict-protocol/src/client.rs:239-248 | Reads lines up to a lone period, unstuffing each |
| DictClient.Session.ExpectOk | crates/dict-protocol/src/client.rs:251-258 | Takes one status and accepts any success |
| DictClient.Session.ShowList | crates/dict-protocol/src/client.rs:105-132 | The whole exchange of SHOW DB and SHOW STRAT: result, what is consumed, what is sent |
| DictClient.Session.DefineWord | crates/dict-protocol/src/client.rs:139-174 | The whole exchange of DEFINE |
| DictClient.Session.FindMatches | crates/dict-protocol/src/client.rs:177-201 | The whole exchange of MATCH |
| DictWire.QuotingRoundTrip | crates/dict-protocol/src/wire.rs:115-147 | Splitting the joined quoted forms of any strings gives them back: empty ones and ones with whitespace, quotes and backslashes included |
| DictWire.BackslashExactly | crates/dict-protocol/src/wire.rs:122-129 | Inside quotes a backslash makes any character stand for itself; outside it is a character like others |
| DictWire.PiecesJoin | crates/dict-protocol/src/wire.rs:128-141 | Bare and quoted pieces with nothing between them are one parameter |
| DictWire.SplitParams | crates/dict-protocol/src/wire.rs:115-147 | The loop over flags computes the automaton |
| DictWire.TakesQuoted | crates/dict-protocol/src/client.rs:269-275 | One quoted parameter is taken whole and only needs its end |
| DictWire.StuffingRoundTrip | crates/dict-protocol/src/wire.rs:98-109 | A stuffed line never ends its block, and unstuffs to itself if and only if it has no CR at its end |
| DictWire.SinglePeriodStays | crates/dict-protocol/src/wire.rs:98-100 | Only a doubled first period is undone |
| DictWire.StatusRoundTrip | crates/dict-protocol/src/wire.rs:75-85 | A status line parses to its code and its text without leading whitespace |
| ScorpionDocument.EncodeOfParse | crates/scorpion-protocol/src/document.rs:276-348 | Whatever parses encodes back to the very octets, and every block read is canonical |
| ScorpionDocument.ParseOfEncode | crates/scorpion-protocol/src/document.rs:232-287 | What is encoded parses to its canonical form, and to itself if and only if every block is canonical |
| ScorpionDocument.AnyPrefix | crates/scorpion-protocol/src/document.rs:304-348 | On every prefix of an encoding the reader yields exactly the whole blocks in it, as many as fit before the cut, then one Truncated if and only if the cut is inside a block |
| ScorpionDocument.PrefixYieldsWholeBlocks | crates/scorpion-protocol/src/document.rs:304-348 | With any m blocks whole before the cut and no more, the reader yields those m blocks, then one Truncated if and only if the cut is inside a block |
| ScorpionDocument.PartOfBlockIsTruncated | crates/scorpion-protocol/src/document.rs:316-326 | Any proper part of a block is truncated and leaves nothing to read |
| ScorpionDocument.ItemsShape | crates/scorpion-protocol/src/document.rs:304-313 | On all octets the reader ends; an error is Truncated and comes last |
| ScorpionDocument.ParsedIsItems | crates/scorpion-protocol/src/document.rs:276-278 | Parsing collects the reader's items: all blocks, or the error that ended them |
| ScorpionDocument.ReadBlockIsLaid | crates/scorpion-protocol/src/document.rs:328-348 | A block that reads fits its length fields, is canonical, and was laid out as the octets read |
| ScorpionDocument.TypeRoundTrip | crates/scorpion-protocol/src/document.rs:67-95 | A type survives its nibble if and only if it is canonical (headings 1 to 6, unknown 7 and 14) |
| ScorpionDocument.EncodingRoundTrip | crates/scorpion-protocol/src/document.rs:125-145 | An encoding survives its nibble if and only if it is canonical |
| ScorpionDocument.TagOfHalves | crates/scorpion-protocol/src/document.rs:228-230 | Every first octet is the tag of what its halves mean |
| ScorpionDocument.Blocks.Take | crates/scorpion-protocol/src/document.rs:316-326 | Takes the octets, or empties the reader |
| ScorpionDocument.Blocks.Read | crates/scorpion-protocol/src/document.rs:328-348 | Reads one block off the front |
| ScorpionDocument.Blocks.Next | crates/scorpion-protocol/src/document.rs:307-312 | One item, and strictly less to read |
| ScorpionDocument.Parse | crates/scorpion-protocol/src/document.rs:276-278 | The collecting loop |
| ScorpionDocument.EncodeTo | crates/scorpion-protocol/src/document.rs:232-246 | Appends a block's octets, or refuses a long attribute first and a long body second, appending nothing |
| ScorpionDocument.Encode | crates/scorpion-protocol/src/document.rs:281-287 | The octets of all blocks, or the first block's error |
| ScorpionDocument.EncodeRefuses | crates/scorpion-protocol/src/document.rs:232-237 | The first block that does not fit decides: an attribute over 65535 octets first, then a body over 16777215 |
| ScorpionRequest.RequestNormalForm | crates/scorpion-protocol/src/request.rs:284-344 | For every line accepted: printing what was read and reading it again loses the fragment and nothing else, printing is then stable, and the scheme is still there |
| ScorpionRequest.WireRoundTrip | crates/scorpion-protocol/src/request.rs:284-326 | Any request survives the wire but for its fragment if and only if its parameter fits its subprotocol and its URL has a scheme |
| ScorpionRequest.LineIsAccepted | crates/scorpion-protocol/src/request.rs:296-325 | Every line of a letter, a fitting parameter, a space and a URL with a scheme, in any of three endings, is accepted as exactly that request |
| ScorpionRequest.LineIsParsed | crates/scorpion-protocol/src/request.rs:309-324 | Which error any other URL or parameter after a known letter gives |
| ScorpionRequest.LineIsRefused | crates/scorpion-protocol/src/request.rs:302-310 | Empty lines, unknown letters and lines without a space |
| ScorpionRequest.SchemeExactly | crates/scorpion-protocol/src/request.rs:329-340 | A URL has a scheme if and only if what stands before its first colon is one, its characters written out |
| ScorpionRequest.FragmentExactly | crates/scorpion-protocol/src/request.rs:343-345 | The fragment is what follows the first # |
| ScorpionRequest.LineOnTheWire | crates/scorpion-protocol/src/request.rs:284-293 | A request's line character by character, with nothing of a fragment in it |
| ScorpionRequest.RangeExactly | crates/scorpion-protocol/src/request.rs:102-112 | A range is numbers about the first hyphen, the second one optional; anything else is refused as a range |
| ScorpionRequest.ParameterRoundTrip | crates/scorpion-protocol/src/request.rs:157-190 | A parameter reads back under its subprotocol, free of spaces, if and only if it fits |
| ScorpionRequest.RangeRoundTrip | crates/scorpion-protocol/src/request.rs:102-121 | A byte range reads back, open-ended or not |
| ScorpionRequest.SchemeSurvives | crates/scorpion-protocol/src/request.rs:329-345 | Dropping the fragment neither drops the scheme nor makes one |

## Left out

- Sockets, timers, scheduling, TLS, certificates, X.509 and SHA-256: a fingerprint, a claimed name and an elapsed time are inputs.
- URL parsing: what a URL library makes of a target is an input; a Guppy request is any line starting with `guppy:`.
- UTF-8 validity and lossy decoding: text is characters, payloads are octets or characters; FSP names stay octets.
- The redb database and JSON: a transaction is atomic and either commits whole or changes nothing; the sequence counter's 64-bit limit is not reached.
- Guppy client send and receive errors of its own socket, and its request length limit: they end a fetch with an error and touch no state.
- Guppy across an overall session timeout while the client runs: a later session has other numbers, and its continuations would be accepted.
- Guppy sequence numbers at the very top of 32 bits sent by a hostile server: the client's `contiguous_end + 1` overflow is not modelled, numbers are unbounded there.
- Guppy bodies too large for the sequence range: `random_seq` underflows for them, so responses are those with fewer than MAX_SEQ - MIN_SEQ packets.
- FSP `list`, `version` and `bye`: one more block loop and single requests on the same `request`.
- FSP command codes other than those of a file transfer: a closed table.
- FSP checksums of 2^32 or more: the final addition is modelled as wrapping.
- DICT single-quoted strings of section 2.2 of RFC 2229: the client's splitter does not know them, and neither does the model.
- DICT `announce` and `quit`: one status each, as in `Session.Command`.
- Misfin's reading of the request line off the stream, and the reply's printing.
- Misfin gemmail: trailing blank body lines and an empty first line do not survive it; it is a separate text format.
- Scorpion response headers: an empty last parameter does not survive them; they are a separate line format.
- Scorpion link URLs in attributes and the request length limit.
- Gemini, Spartan, Kepler, Scroll, Text, Nex, Finger, Gopher and Titan: mostly one-line headers and line classifiers.
