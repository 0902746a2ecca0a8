# tailcat: a verified model

This project models the protocol code of tailcat in Dafny and proves what that code is for. Run `dafny verify
dfyconfig.toml` to check it. Nothing here executes tailcat; the proofs are about the model, which follows the source
branch by branch.

## What is modelled

**Addresses** (`Base64Url`, `Cbor`, `CborStrict`, `CborIO`, `Entries`, `Address`, `AddressItems`, `AddressIds`,
`AddressWire`, `AddressLaws`, `AddressOrder`, `AddressNesting`, `AddressIO`). The `tc...` codec is an imperative
reader and writer. The reader's methods move a cursor over a byte string; each is proved equal to a function of the
remaining bytes. Those functions are in turn proved equal to a reference parser for item trees (RFC 8949) followed by
an interpretation of the tree. All laws are proved about the interpretation and so hold of the loops: print and parse
are inverse up to the documented normalisation; order, unknown entries, wide heads and nesting do not matter; parsing
is stable under re-encoding exactly when the document carries at most one region; base64url (RFC 4648 section 5) is
inverted with its exact condition. `AddressIds` says field by field what comes back and when each error occurs,
`AddressWire` which bytes a printed address consists of.

**Byte forwarders** (`Pump`, `Tunnel`, `Forwarder`, `ServiceRuns`, `ReadErrors`, `Progress`). One connection is a
transition system whose steps are the regions between mutex acquisitions: every append of the reader thread, the part
of `service` before its second lock region, and the part after. `Forwarder` has the objects and methods
(`TunnelStream`, `HostReadState`, `Connection`); each method, the network stack's callbacks included, is proved to
take exactly the step of the system, and `ServiceRuns` shows that every call of `service`, with any reads in between,
is a run. `ReadErrors` settles when a failing host read ends a connection and what is lost then. `Tunnel` joins a
client and a server connection by a FIFO that accepts partial writes, delays, and may fail at either end, and proves
end-to-end fidelity for all runs. `Progress` is about what the calls achieve: what one call moves and when it
half-closes, that repeated calls hand everything over, and that no reachable state wedges a transfer.

**SOCKS** (`Socks`, `SocksOutcomes`, `SocksProxy`, `SocksErrors`, `SocksRuns`). The handshake thread reads a stream
cut into arbitrary chunks; its outcome is proved to depend on the bytes only, and to be the one RFC 1928 sections 3
and 4 give; `SocksOutcomes` describes every refusal on the client's bytes. The proxied connection is joined to the
served connection at the other end of its tunnel; `SocksErrors` has the read errors of its client, `SocksRuns` its
replies and its progress.

**Rendezvous and data plane** (`DataPlane`, `PlaneHistory`, `Rendezvous`, `Delivery`, `Retry`, `Connect`). The
server's tables are a class with steps; over all runs they refine the list of admissions, and `PlaneHistory` has
everything that a run sends and delivers. `Rendezvous` puts the server and any number of clients on a relay that
authenticates sources but drops, duplicates, delays and reorders packets and carries arbitrary third-party traffic.
`Delivery` follows an IP packet from one engine through the relay to the other network stack. `Retry` and `Connect`
are the timed loops: they run against a clock and a list of receptions, of which any finite part may have been seen so
far (`Unfinished`, `Pending`, `Waiting` and `Running` are calls that have not returned yet).

**DERP** (`Derp`, `DerpStream`), **WireGuard padding and transport packets** (`WireGuardEngine`), **handshake time
stamps** (`Tai64n`), **ProxyCommand quoting** (`Quoting`), **DNS responses and destination arguments** (`Dns`,
`DnsIO`, `Resolver`) complete the core. `Core` and `Endian` are shared vocabulary.

## What the code does where one might expect otherwise

- Repeated `r` entries at the top level and repeated `N` entries in a region append. Such an address is accepted with
  two regions and cannot be re-encoded into an accepted one, since a list of more than one region is refused
  (`AddressLaws.RepeatedRegionsEntry`). `AddressLaws.StableExactly` is the exact condition.
- The reader accepts simple values below 32 that have a byte of their own, which RFC 8949 section 3.3 calls not
  well-formed (`CborStrict.ShortSimpleAccepted`). They are the only difference from the definite-length items of the
  standard (`CborStrict.StrictExactly`).
- A read error of the host does not always take the error path. `take_host_chunk` looks at it only when the pending
  chunk was pushed completely, so it goes unnoticed when it comes in between the two lock regions of the last
  `service` call (`ReadErrors.ErrorBetweenRegions`) and when it comes in while a chunk is still pending that the last
  call pushes (`ReadErrors.ErrorBeforePush`). `ReadErrors.ReadErrorMet` is the exact condition for one call,
  `ReadErrors.RunErrors` and `ReadErrors.UnnoticedReadError` for whole runs. The other properties speak of what was
  read from the host, which is conserved all the same.
- Error paths close the tunnel with `close`, which sends a FIN like a clean close unless it fails. The other end
  cannot tell this from the end of the stream, so that it shuts its host's write side down cleanly although bytes that
  were read are missing (`ReadErrors.LostAtHalfClose`). Exactly those are missing that the closing end's tunnel had
  not accepted; all were delivered if and only if it had accepted all, and without an error path it had
  (`Tunnel.EndToEnd`, and `SocksProxy.StreamDiscipline` for the SOCKS proxy).
- After a read error the SOCKS forwarder still passes the end of the tunnel's stream on to its host before it closes,
  unlike the other two (`SocksErrors.EofAfterReadError`; exactly when, in `SocksErrors.RelayPassesEof`). Which events
  end a session is the same otherwise (`SocksErrors.SessionErrors`, `SocksErrors.UnnoticedClientError`).
- `decode_derp_frame` accepts frames of more than 10 MiB, which `encode_derp_frame` refuses
  (`Derp.DecodesLongFrames`); `Derp.DecodedReencodes` says exactly which decoded frames can be encoded again.
- `rendezvous_server_once` waits in whole milliseconds, so that it may give up before its deadline, by less than one
  (`Connect.RendezvousServerOnce`).
- An allowed ping admits nobody when the peer object cannot be built, and an admitted node is not acknowledged when
  sending throws; it stays in the table (`DataPlane.Admit`).

## Model

| member | source | states |
|---|---|---|
| Base64Url.Base64UrlEncode | src/protocol.cpp:24-52 | the loop computes the text whose decoding and length laws follow |
| Base64Url.Base64UrlDecode | src/protocol.cpp:63-93 | the loop accepts exactly unpadded alphabet text of length not 1 modulo 4 and computes its bytes |
| Base64Url.AlphabetExactly | src/protocol.cpp:24-61 | the 64 characters stand for their positions in the alphabet of RFC 4648, in both directions, and no other character is accepted |
| Base64Url.RoundTrip | src/protocol.cpp:24-93 | decoding undoes encoding for all non-empty bytes; ceil(4n/3) characters, never 1 modulo 4 |
| Base64Url.Reencode | src/protocol.cpp:63-93 | an accepted text is the encoding of its bytes if and only if its unused low bits are zero |
| Base64Url.SextetsOfOctets | src/protocol.cpp:63-93 | regrouping bits is the identity exactly when the unused bits are zero |
| Cbor.HeadRoundTrip | src/protocol.cpp:164-177 | the head reader inverts every width of head, for every argument that fits it and any continuation |
| Cbor.HeadSplit | src/protocol.cpp:164-177 | whatever the head reader accepts is a head of the format followed by the rest |
| Cbor.ShortestHead | src/protocol.cpp:215-233 | the writer's head is the unique shortest and the reader inverts it, for every uint64 |
| Cbor.ReadEncoded | src/protocol.cpp:95-191 | the reference parser reads one encoded item tree and stops at any suffix |
| Cbor.ReadSplit | src/protocol.cpp:95-191 | whatever it accepts is the encoding of the tree it returns, then the rest |
| Cbor.SkipAgrees | src/protocol.cpp:137-161 | skipping and parsing accept the same inputs and leave the same rest |
| Cbor.SkipExactlyOneItem | src/protocol.cpp:137-161 | skip leaves a rest if and only if the input is one well-formed item followed by that rest |
| CborStrict.ShortSimpleAccepted | src/protocol.cpp:137-173 | the bytes f8 and a value below 32 are skipped as one item and are not well-formed by the standard |
| CborStrict.StrictExactly | src/protocol.cpp:137-173 | skipping that refuses these heads accepts exactly the standard's definite-length items; what the code skips beyond them are exactly the items containing one |
| CborIO.CborReader.ReadHeadAt | src/protocol.cpp:164-177 | the cursor stays within the data and moves to the rest of the head reader |
| CborIO.CborReader.Skip | src/protocol.cpp:137-161 | on every input it terminates, and moves the cursor past exactly one item or fails |
| CborIO.CborReader.Text | src/protocol.cpp:103-109 | the cursor moves past one text string, whose bytes are returned, or the call fails |
| CborIO.CborReader.Bytes | src/protocol.cpp:110-117 | the cursor moves past one byte string, whose bytes are returned, or the call fails |
| CborIO.CborReader.Integer | src/protocol.cpp:118-129 | the cursor moves past one integer of the int64 range or the call fails |
| CborIO.CborReader.Boolean | src/protocol.cpp:130-136 | the cursor moves past one boolean byte or the call fails |
| CborIO.CborWriter.WriteHead | src/protocol.cpp:215-233 | appends the shortest head of the value |
| CborIO.CborWriter.WriteInteger | src/protocol.cpp:207-213 | appends the encoding of a well-formed integer item, for all of int64 |
| CborIO.IntegerVia | src/protocol.cpp:118-129 | reading an integer is reading one item and interpreting it, on every input |
| CborIO.IntegerRoundTrip | src/protocol.cpp:118-213 | integers survive writing and reading over the whole int64 range |
| Entries.FoldEntriesVia | src/protocol.cpp:245-262 | the loop over declared map entries is the parse of that many pairs followed by a fold of their meanings |
| Address.TopVia | src/protocol.cpp:326-357 | on every byte string, reading an address is reading one item tree and interpreting it |
| Address.RegionVia | src/protocol.cpp:264-282 | the same for a region with its nested nodes |
| Address.AcceptedExactly | src/protocol.cpp:326-357 | a document is accepted with a result if and only if it encodes a well-formed tree that means this result and passes the checks |
| Address.ParseEncoded | src/protocol.cpp:326-357 | parsing the encoding of a tree, with heads of any width, depends on its meaning only |
| AddressItems.NodeRoundTrip | src/protocol.cpp:245-305 | a written node is read back unchanged, default fields left out included |
| AddressItems.RegionRoundTrip | src/protocol.cpp:264-324 | a written region is read back as the region with the fill of node ids applied, whose meaning is `AddressIds.RegionExactly` |
| AddressItems.DraftRoundTrip | src/protocol.cpp:326-379 | the written top-level map means the record itself when it has at most one region and is refused otherwise |
| AddressItems.PrintParse | src/protocol.cpp:326-379 | printing fails exactly on zero keys; parsing the text gives the normal form, whose fields are those of `AddressIds.PrintParseFields`, or exactly the stated error for two regions or no region information |
| AddressIds.PrintParseFields | src/protocol.cpp:264-379 | every field of every record comes back; a node without a region id takes that of its region, an address without one that of its first region; the errors are exact |
| AddressIds.RegionExactly | src/protocol.cpp:264-282 | a region item means what its entries say with missing node region ids filled in, and nothing else |
| AddressIds.AcceptedIds | src/protocol.cpp:277-355 | in every accepted address a node lacks a region id only if its region does, and the address only if its first region does |
| AddressIds.FinishExactly | src/protocol.cpp:326-357 | which records pass the checks after reading, with which result, and which error the others give |
| AddressIds.OutcomeExactly | src/protocol.cpp:326-357 | a document is malformed exactly if no front part of it encodes a tree that means an address; a longer one has trailing data |
| AddressIds.TextExactly | src/protocol.cpp:326-357 | prefix and base64 errors occur exactly for their texts, and otherwise the decoded bytes decide |
| AddressWire.PrintedBytes | src/protocol.cpp:284-379 | a printed address is tc and the base64url text of exactly these bytes: the letters, order, heads and omitted defaults of all three maps |
| AddressLaws.Stable | src/protocol.cpp:326-379 | every accepted address can be printed, and parsing that gives the same record if and only if it has at most one region |
| AddressLaws.StableExactly | src/protocol.cpp:326-379 | parsing an accepted document is stable under re-encoding if and only if its r entries carry at most one region in all |
| AddressLaws.StableWithOneRegionsEntry | src/protocol.cpp:326-379 | so parsing is stable for every accepted document with at most one r entry |
| AddressLaws.RepeatedRegionsEntry | src/protocol.cpp:337-343 | a document with two r entries that is accepted and whose re-encoding is refused |
| AddressLaws.FoldPermutation | src/protocol.cpp:245-282 | entries whose effects commute may be permuted |
| AddressLaws.NodeOrder | src/protocol.cpp:245-262 | two node maps whose entries mean the same known fields mean the same node, whatever the order, the unknown entries and the head widths |
| AddressLaws.RegionOrder | src/protocol.cpp:264-282 | the same for region maps |
| AddressLaws.TopOrder | src/protocol.cpp:326-357 | two documents whose top-level entries mean the same known fields parse to the same result, whatever the order, the unknown entries and the head widths |
| AddressLaws.UnknownTopEntry | src/protocol.cpp:333-350 | inserting an unknown text key with any well-formed value never changes the result, failures included |
| AddressLaws.UnknownRegionEntry | src/protocol.cpp:264-282 | the same inside a region map |
| AddressLaws.UnknownNodeEntry | src/protocol.cpp:245-262 | the same inside a node map |
| AddressOrder.NodeEntriesOrder | src/protocol.cpp:245-262 | permuting the entries of a node map with distinct keys never changes its meaning, failures included |
| AddressOrder.RegionEntriesOrder | src/protocol.cpp:264-282 | the same for region maps |
| AddressOrder.TopEntriesOrder | src/protocol.cpp:326-357 | permuting the top-level entries of a document with distinct keys never changes the result of parsing, failures included |
| AddressNesting.ReplaceNode | src/protocol.cpp:264-282 | a node may be replaced inside a region by any item that means the same node |
| AddressNesting.ReplaceRegion | src/protocol.cpp:326-357 | a region may be replaced inside an address by any item that means the same region |
| AddressIO.ReadNodeFrom | src/protocol.cpp:245-262 | the node loop moves the cursor and returns what the byte-level meaning says, on every input |
| AddressIO.ReadRegionFrom | src/protocol.cpp:264-282 | the same for the region loop, with the loop that fills node region ids |
| AddressIO.ParseTailcatAddr | src/protocol.cpp:326-357 | the whole parser, loops and cursor, computes the function all laws are about, errors included |
| AddressIO.EncodeTailcatAddr | src/protocol.cpp:359-379 | the whole printer computes the function all laws are about, errors included |
| AddressIO.WriteInfo | src/protocol.cpp:359-379 | the writer appends the encoding of the record's item tree, its declared counts being right |
| Pump.StepKeeps | src/local_forward.cpp:162-245 | every step at every interleaving point keeps conservation, chunk, half-close and teardown invariants |
| ReadErrors.ReadErrorMet | src/local_forward.cpp:162-184 | a call aborts exactly when it takes a due chunk with the error set or on another error path; when nothing throws, exactly when the pending chunk was pushed before the call, for both forwarders |
| ReadErrors.OtherErrorExactly | src/local_forward.cpp:162-245 | the call would abort without the read error, too, exactly when the tunnel failed, or a write or shutdown that the call gets to throws; each with its guard |
| ReadErrors.ServicedReadError | src/port_forward.cpp:166-211 | reads between the lock regions, errors among them, change nothing: a call ends the connection cleanly exactly when both directions are drained |
| ReadErrors.RunErrors | src/local_forward.cpp:162-245 | in every run a connection is aborted exactly by a call that found its pending chunk pushed after the error arrived, or by another error path |
| ReadErrors.UnnoticedReadError | src/port_forward.cpp:130-211 | a finished connection whose host failed ended like a clean one exactly when the error arrived after its last call with the pending chunk pushed |
| ReadErrors.ErrorBetweenRegions | src/local_forward.cpp:227-239 | a run in which an error between the lock regions ends without an error path |
| ReadErrors.ErrorBeforePush | src/port_forward.cpp:130-205 | a run in which an error behind a pending chunk ends without an error path, several calls later |
| Tunnel.EndToEnd | src/port_forward.cpp:130-211 | in every run each host gets a prefix of what was read from the other; once its write side is shut down that is what the other end's tunnel accepted, hence all of it if and only if everything was accepted, which is so unless the other end took an error path |
| ReadErrors.LostAtHalfClose | src/port_forward.cpp:130-211 | a run of both ends in which a read byte never arrives, although the receiving end shuts its host's write side down without an error path |
| Tunnel.CleanFinish | src/local_forward.cpp:224-238 | a non-error finish means both directions are drained and complete |
| Tunnel.HalfClose | src/local_forward.cpp:185-222 | no half-close before every byte of its direction was accepted or written |
| Tunnel.Conservation | src/port_forward.cpp:30-164 | bytes read are bytes accepted, the pending rest and the queue, in this order; no empty chunk is queued |
| Progress.QuietTransfer | src/local_forward.cpp:162-222 | a call in which nothing throws writes everything delivered to the host and passes its end on; the tunnel takes exactly as much of the chunk as fits, and gets the FIN if and only if the host had ended and everything was accepted |
| Progress.QuietService | src/port_forward.cpp:130-211 | the same for the whole call, which ends the connection exactly when both streams have ended and everything was accepted |
| Progress.FailedTransfer | src/port_forward.cpp:145-199 | a call on an error path closes both ends, with a FIN unless closing resets, after writing exactly the stated part of the delivered bytes |
| Progress.Flushes | src/port_forward.cpp:130-211 | one more quiet call than there are bytes left hands everything over and sends the FIN |
| Progress.NextCallSendsFin | src/port_forward.cpp:130-164 | in every run, the first quiet call after the host has ended and everything was accepted sends the FIN, and no earlier call does |
| Progress.AlwaysCompletes | src/port_forward.cpp:130-211 | from every reachable state in which both hosts have said everything and neither end has failed, some continuation delivers everything and ends both connections cleanly |
| Forwarder.TunnelStream.Write | src/lwip_stack.cpp:217-231 | accepts a prefix bounded by the send buffer, nothing when closed or unconnected; a throw comes before anything or after everything was queued |
| Forwarder.TunnelStream.ReadAvailable | src/lwip_stack.cpp:233-242 | returns everything received, in order, and leaves nothing |
| Forwarder.TunnelStream.ShutdownWrite | src/lwip_stack.cpp:244-249 | closes the write side once, or throws and changes nothing |
| Forwarder.TunnelStream.CloseStream | src/lwip_stack.cpp:251-264 | closes once, with a FIN or, when closing fails, with a reset; afterwards the stream has no control block |
| Forwarder.Connection.RunReader | src/local_forward.cpp:30-52 | appends the chunks read until the first empty or failing read, nothing after it |
| Forwarder.Connection.Receive | src/lwip_stack.cpp:78-103 | received data is the Deliver step of the system |
| Forwarder.Connection.ReceiveEof | src/lwip_stack.cpp:85-88 | the end of the stream is the DeliverEof step |
| Forwarder.Connection.ReceiveFailure | src/lwip_stack.cpp:92-123 | failed copies, failed connects and stack errors are Fail steps, with and without the control block |
| Forwarder.Connection.ReceiveConnected | src/lwip_stack.cpp:117-127 | a connect is the Connected step |
| Forwarder.Connection.TakeHostChunk | src/local_forward.cpp:162-196 | takes the step of the transition system, read errors and throwing shutdowns included |
| Forwarder.Connection.Service | src/local_forward.cpp:198-245 | a call with any reads between its lock regions takes the steps of the system and keeps the invariant |
| ServiceRuns.ServiceIsRun | src/port_forward.cpp:166-211 | every call of service at either end is a run, so the run theorems hold of the objects |
| Socks.AcceptedExactly | src/socks_command.cpp:222-297 | a handshake succeeds, with a port and a length, if and only if the bytes start with a greeting offering method 0 and a CONNECT request for the served host and that port, of that length |
| SocksOutcomes.RefusedExactly | src/socks_command.cpp:222-289 | each refusal code over all inputs: 7 exactly for other commands, 8 for other address types, 1 for port 0, 4 for a host that is not the server, always after a greeting with method 0 |
| SocksOutcomes.UnansweredExactly | src/socks_command.cpp:222-289 | no acceptable method, wrong bytes, and bytes that end too early, each exactly |
| SocksOutcomes.AnswerExactly | src/socks_command.cpp:95-99 | the bytes the client is told, by outcome |
| SocksOutcomes.ServesExactly | src/socks_command.cpp:250-286 | the served hosts: server.tailcat in any case, or the server's address as a name or in dotted decimal form |
| Socks.ClientSocket.ReadExact | src/socks_command.cpp:84-94 | returns exactly the next bytes for every chunking, or fails on a short or throwing stream |
| Socks.ClientSocket.BeginHandshake | src/socks_command.cpp:222-297 | outcome, answer and number of replies depend on the bytes alone unless the socket throws; at most one reply, only to refuse; exactly the handshake is consumed |
| SocksProxy.SessionStepKeeps | src/socks_command.cpp:337-407 | every step keeps the relay's invariant and the order of what the client is told |
| SocksProxy.StreamDiscipline | src/socks_command.cpp:315-407 | in every run at most one reply; tunnel bytes only after the success reply; the tunnel carries in order exactly the bytes after the handshake; at half-close each side has what the other side's tunnel accepted, and the served host all bytes if and only if all were accepted |
| SocksProxy.WholeStream | src/socks_command.cpp:222-407 | for everything a client may send, the tunnel takes a prefix of the bytes after the handshake, the served host has them all at half-close if and only if the tunnel took them all, and handshake and session together issue at most one reply |
| SocksProxy.AcceptClient | src/socks_command.cpp:222-334 | the session that starts is the one for the bytes left by a successful handshake, and none starts otherwise |
| SocksErrors.RelayPassesEof | src/socks_command.cpp:337-394 | the relay's transfer is a local forwarder's, except that one that meets the read error also shuts the host's write side, exactly when the tunnel's stream has ended and the shutdown does not throw |
| SocksErrors.EofAfterReadError | src/socks_command.cpp:337-394 | a session that aborts on a read error and has passed the end of the tunnel's stream on, where a local forwarder's transfer does not |
| SocksErrors.SessionErrors | src/socks_command.cpp:315-407 | in every run a session is aborted exactly by a failing dial, a failing reply, a call that takes a due chunk after the error, or another error path |
| SocksErrors.UnnoticedClientError | src/socks_command.cpp:337-407 | a finished session whose client failed ended like a clean one exactly when the error arrived after its last call with the pending chunk pushed |
| SocksRuns.RepliesExactly | src/socks_command.cpp:315-362 | in every run a client is told 1 exactly if dialling failed, and otherwise 5 or 0 exactly if some call found it waiting with the tunnel failed or connected |
| SocksRuns.QuietSession | src/socks_command.cpp:370-394 | a quiet call of a connected session gives the client its reply and everything delivered, moves its bytes on, and half-closes exactly when it has ended and all was accepted |
| SocksRuns.WaitingSession | src/socks_command.cpp:362-411 | a call before the tunnel is connected does nothing, and every call without an error path reaches its second lock region |
| SocksRuns.TeardownExactly | src/socks_command.cpp:396-407 | a session without an error ends exactly when both streams have ended and everything was accepted, and then both ends are closed |
| SocksRuns.EndsRun | src/socks_command.cpp:337-407 | each end of a joined run is a run of that end alone |
| DataPlane.ServerDataPlane.Handle | src/data_plane.cpp:146-197 | one frame takes the step of the table model, answered pings included, and throws exactly where the step does; what that step is follows in `PlaneHistory` |
| DataPlane.ServerDataPlane.SendIpPacket | src/data_plane.cpp:134-144 | one IP packet goes to the routed node's session or nowhere |
| DataPlane.Tables | src/data_plane.cpp:117-132 | over all runs peers are exactly the sources of allowed valid MEOWs for which a peer object could be built, with their latest disco key, and each address belongs to the first admitted node having it |
| DataPlane.RoutesToFirst | src/data_plane.cpp:134-144 | routing agrees with a scan in admission order, even for keys that share their first 80 bits |
| DataPlane.PeersGrow | src/data_plane.cpp:117-132 | peers are never forgotten |
| PlaneHistory.AdmissionExactly | src/data_plane.cpp:169-186 | a frame admits exactly its source, and only if that is allowed and its packet is a ping with a disco key that is not zero |
| PlaneHistory.PeerFrame | src/data_plane.cpp:187-197 | a packet of a peer: exactly what is sent, what reaches the network stack, whose session counts as established, and when the call throws |
| PlaneHistory.OtherFrame | src/data_plane.cpp:146-189 | every other frame: admissions, answered pings, malformed frames, and no effect otherwise |
| PlaneHistory.WhatHappened | src/data_plane.cpp:117-197 | over every run, everything sent, answered and handed to the network stack is in order what the history of the inputs says |
| Delivery.ClientToServer | src/data_plane.cpp:187-197 | a packet that an admitted client encrypts arrives in the server's network stack if and only if it declares its own size and the stack takes it |
| Delivery.ServerToClient | src/data_plane.cpp:134-144 | a packet of the server's stack goes to the client it is routed to and decrypts to itself if and only if it declares its own size |
| Rendezvous.WireGuardIsNotMeow | src/protocol.cpp:392-398 | no WireGuard packet is taken for a rendezvous packet |
| Rendezvous.StepKeeps | src/data_plane.cpp:146-197 | every step on the relay keeps: each acknowledgment under the server's key is for an admitted node |
| Rendezvous.Agreement | src/rendezvous.cpp:78-123 | when a client's rendezvous returns, the server had received a valid ping from that key, allows it, and keeps it as a peer ever after |
| Rendezvous.Completable | src/rendezvous.cpp:78-123 | from every state three deliveries complete the rendezvous of an allowed client if the server can send and has or can build its peer object; otherwise the server sends nothing |
| Retry.ReceivePacketFor | src/rendezvous.cpp:34-74 | negative timeouts throw; control frames are skipped, eight-byte pings answered, and the first other reception or the deadline decides the result; nothing is waited for once the deadline is seen to have passed |
| Retry.PongsExactly | src/rendezvous.cpp:44-51 | exactly the pings of eight bytes are answered, each with its own bytes, in order |
| Retry.ReceptionsExactly | src/rendezvous.cpp:34-74 | which frames are packets, of which source and content, which are malformed, and which are skipped |
| Retry.PacedBound | src/rendezvous.cpp:86-116 | attempts a gap apart in a window number at most its length divided by the gap, rounded up |
| Retry.RendezvousClient | src/rendezvous.cpp:78-123 | at most ceil(timeout/1s) pings, a second apart, the first at once, none after the deadline; returns on the first acknowledgment of the server and throws on the first malformed packet frame or broken reception; the answered pings are exact |
| Connect.RendezvousServerOnce | src/rendezvous.cpp:125-150 | answers the first admissible ping with exactly one acknowledgment and sends nothing else; throws on the first malformed or broken reception; gives up only when nothing came or less than a millisecond before the deadline |
| Connect.WireGuardDerpPeer.ReceiveOneFor | src/wireguard_derp.cpp:39-78 | only packets of the peer reach the engine; its answer and plaintext are passed on, pings are answered, and it fails exactly for its causes |
| Connect.WireGuardDerpPeer.Connect | src/wireguard_derp.cpp:80-105 | at most ceil(timeout/5s) initiations, five seconds apart, the first at once; succeeds exactly on the first establishing packet, and a call that does not throw has seen no malformed or broken reception and no failed send |
| Derp.EncodeDerpFrame | src/derp.cpp:41-56 | the shifts and pushes build the frame's wire form, or refuse a long payload |
| Derp.FrameRoundTrip | src/derp.cpp:41-69 | decoding undoes encoding for every payload up to 10 MiB |
| Derp.DecodedReencodes | src/derp.cpp:41-69 | what decodes is the wire form of the result, and encodes to itself again if and only if it is within the size limit |
| Derp.DecodesLongFrames | src/derp.cpp:41-69 | the decoder accepts every frame whose length fits four bytes, those the encoder refuses included |
| Derp.PacketRoundTrip | src/derp.cpp:98-116 | a packet and its key survive making and parsing exactly up to the packet limit |
| Derp.ReceivedExactly | src/derp.cpp:104-116 | a received packet is exactly a key and up to 64 KiB |
| Derp.MeowRoundTrip | src/protocol.cpp:381-410 | a ping is read back, trailing bytes included, unless its disco key is zero, and is never an acknowledgment |
| Derp.MeowExactly | src/protocol.cpp:381-410 | the rendezvous packets byte by byte: which packets are recognised, which pings are read and what is written |
| DerpStream.TakeLater | src/derp_http.cpp:110-134 | taking frames early or late yields the same frames and rest |
| DerpStream.ChunkingIrrelevant | src/derp_http.cpp:110-170 | what comes out depends on the concatenation of the chunks only |
| DerpStream.Reassembly | src/derp_http.cpp:110-170 | for every list of frames and every cutting, exactly those frames come out in order and a proper prefix of the next stays |
| DerpStream.TakenArePrefix | src/derp_http.cpp:110-170 | at every moment the frames handed out are a prefix of the frames sent |
| DerpStream.TakeExactly | src/derp_http.cpp:110-134 | a frame is taken exactly if the buffer starts with one of up to 10 MiB, and refused exactly if the header announces more |
| DerpStream.ReadsExactly | src/derp_http.cpp:136-170 | the outcomes of reading one frame, on the bytes: the first frame of everything that came, a refused header, or an incomplete frame and the cause for stopping |
| DerpStream.DerpConnection.TakeBufferedFrame | src/derp_http.cpp:110-134 | takes the first frame off the buffer; all received bytes stay accounted for |
| DerpStream.DerpConnection.ReceiveSome | src/derp_http.cpp:136-153 | retries until bytes come and appends exactly them, or reports the break or the passed deadline |
| DerpStream.DerpConnection.ReadFrame | src/derp_http.cpp:165-170 | returns the next frame as soon as its last byte has arrived, and fails only for the stated causes |
| DerpStream.DerpConnection.ReadFrameFor | src/derp_http.cpp:155-163 | the same with a deadline: the next frame as soon as its last byte has arrived, the stated failure, or nothing as soon as the deadline is seen to have passed, at every check of the clock |
| DerpStream.DerpConnection.SendAll | src/derp_http.cpp:89-104 | pushes a prefix in order, all of it exactly when no send fails before |
| DerpStream.CanSendExactly | src/derp_http.cpp:89-104 | everything is pushed out exactly if some first sends take enough and none of them fails |
| WireGuardEngine.LoadLE | src/wireguard_engine.cpp:41-54 | the loop computes the little-endian value |
| WireGuardEngine.StoreLE | src/wireguard_engine.cpp:56-66 | writes the little-endian bytes in place and nothing else |
| WireGuardEngine.LittleEndianRoundTrip | src/wireguard_engine.cpp:41-66 | loading undoes storing within the width |
| WireGuardEngine.PaddedLengthIsLeast | src/wireguard_engine.cpp:246 | the padded size is the least multiple of 16 not below the size |
| WireGuardEngine.TrimmedWithinPadded | src/wireguard_engine.cpp:68-88 | a trimmed length never exceeds the decrypted length |
| WireGuardEngine.TrimmedExactly | src/wireguard_engine.cpp:68-88 | the trimmed packet is exactly the front part whose IPv4 or IPv6 header declares its own size |
| WireGuardEngine.PadExactly | src/wireguard_engine.cpp:246-253 | padding adds the fewest zero bytes up to a multiple of 16 |
| WireGuardEngine.Outcomes | src/wireguard_engine.cpp:132-231 | which packets establish a session, which are answered with what, and which plaintext is handed up, over all packets |
| WireGuardEngine.PadTrim | src/wireguard_engine.cpp:68-250 | padding and trimming give the packet back if and only if its IPv4 or IPv6 header declares its own size |
| WireGuardEngine.TransportRoundTrip | src/wireguard_engine.cpp:192-265 | over an ideal cipher, handle undoes encrypt if and only if the IPv4 or IPv6 header of the packet declares its own size |
| WireGuardEngine.Engine.Handle | src/wireguard_engine.cpp:132-231 | every branch and early return of the packet handler takes the step whose outcomes are `WireGuardEngine.Outcomes`; sessions are only ever established |
| WireGuardEngine.Engine.Encrypt | src/wireguard_engine.cpp:233-265 | the buffer filled in place is the transport packet and the counter advances |
| WireGuardEngine.EmitsWireGuard | src/wireguard_engine.cpp:132-265 | everything the engine emits starts with a WireGuard message type |
| Tai64n.Tai64nClock.Now | src/wireguard_platform.cpp:30-53 | the buffer gets the stamp of the new counter, which is later than the old one below 2^64-1 |
| Tai64n.NextIsLeast | src/wireguard_platform.cpp:37-44 | a stamp's time is the first after the last one that is not before the clock, until the counter ends |
| Tai64n.StampExactly | src/wireguard_platform.cpp:30-53 | a stamp is seconds from 2^62 + 10 and nanoseconds below a second, and determines its time |
| Tai64n.BigEndianOrder | src/wireguard_platform.cpp:47-52 | smaller numbers are lexicographically smaller big-endian strings |
| Tai64n.Advances | src/wireguard_platform.cpp:37-44 | a stamp's time is later than the one before if and only if the counter is not at its end |
| Tai64n.StampsIncrease | src/wireguard_platform.cpp:30-53 | for every clock history, backward steps included, the first 2^63 stamps increase strictly as strings |
| Quoting.UnixShellQuote | src/ssh_command.cpp:77-97 | the loop computes the quotation whose inverse is proved |
| Quoting.UnixRoundTrip | src/ssh_command.cpp:70-279 | a command exists exactly for arguments without refused characters; percent expansion then shell splitting return those arguments |
| Quoting.WindowsArgQuote | src/ssh_command.cpp:99-119 | the loop with its backslash count computes the quotation whose inverse is proved |
| Quoting.WindowsRoundTrip | src/ssh_command.cpp:99-279 | a command exists exactly for safe arguments; the backslash-before-quote rule returns those arguments |
| Quoting.SshProxyCommand | src/ssh_command.cpp:257-279 | builds the command of the executable, flags, address and port in order |
| Quoting.ProxyArguments | src/ssh_command.cpp:70-279 | what the reader of the command gets is the executable, the flags that are set, the address and the port in this order; a command exists exactly if no refused character occurs |
| Dns.WalkCorrect | src/address_resolver.cpp:84-143 | the walk returns texts if and only if the response is a well-formed message whose TXT answers of class IN are these, in order |
| Dns.WalksMessage | src/address_resolver.cpp:84-143 | every well-formed message, labels and pointers mixed, is read |
| DnsIO.SkipNameAt | src/address_resolver.cpp:91-110 | the name loop terminates inside the message on every input |
| DnsIO.CollectTxtRecords | src/address_resolver.cpp:112-143 | the cursor loops compute the walk; no index leaves the message |
| Resolver.Classify | src/address_resolver.cpp:149-176 | used directly iff an address; looked up iff a dotted name none of whose labels is an address |
| Resolver.ValueExactly | src/address_resolver.cpp:178-200 | the records that name an address are tailcat= and the address |
| Resolver.AddressFromTxt | src/address_resolver.cpp:178-200 | succeeds iff some record names an address, all naming records are valid and all agree |

## Left out

- Libraries: lwIP, the Noise handshake and keypair rotation of wireguard-lwip, libsodium, curl and TLS, libssh and
  JSON are seen only through the bytes and flags they give: a FIFO that accepts partial writes, an ideal cipher,
  answers of one call.
- Sockets, DNS queries, HTTP, processes, PTYs, files, the command line, `src/embedded_ssh.cpp`, `src/derp_map.cpp`,
  `src/crypto.cpp`, `src/saved_key.cpp`: plumbing around the modelled core.
- Liveness and scheduling: all statements are safety and send bounds, except that `Rendezvous.Completable` says when
  completion is possible.
- Data races on socket close, allocation failure, `reserve` on large declared counts, and the depth of the C++ stack
  in the recursive `skip`.
- Error texts: an exception is a value without its message, so host read errors are assumed to have a non-empty
  message.
- Widths of `size_t`: lengths are unbounded, so the `size_t` overflow tests of the reader and of `encrypt` never fire.
- The accept, poll and erase loops of the forwarders and the SOCKS proxy: connections do not share state.
- Forwarder.Connection.Service: the reader thread's steps between the lock regions are given as a list of reads; reads
  at other moments are steps of the transition system.
- SocksProxy.StreamDiscipline: the event loop of the SOCKS proxy is modelled on values; it updates the same objects as
  `Forwarder.Connection`, with the reply in front.
- DataPlane.ServerDataPlane.Handle: peer pointers are the node keys they point to, what the other objects answer
  during one frame is an argument, and an empty allow function is one that allows all.
- Rendezvous.Agreement: the client's own steps are those of a third party plus the acceptance test of
  `rendezvous_client`; its loop is `Retry.RendezvousClient`.
- Retry.RendezvousClient: that later pings go out at the first reading that makes them due is the contract of
  `Retry.SendIfDue`; the method's own contract bounds them from above and fixes the first.
- Connect.WireGuardDerpPeer.Connect: the handshake packets themselves are the engine's; the clock is assumed steady in
  the two readings before the loop.
- Quoting.UnixRoundTrip: percent sequences other than `%%` and unquoted special characters are outside the two
  readers, and never occur in a generated command.
- DnsIO.CollectTxtRecords: the query itself and the Windows branch.
- `pump_for` and the UDP and listener halves of the stack: loops over the modelled parts.
