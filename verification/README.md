# PROFINET gateway and simulator: a verified model

This project models, in Dafny, the byte-level core of a PROFINET IO controller, its TCP/STM
gateway and a simulated drive, and proves what they promise each other.

- **Frame allocation** (`IocrLayout`, `IocrBlock`, `IocrAgreement`, `OutputFrame`, `Golden`): where
  every data, IOPS and IOCS byte of a sub-module list lies in the cyclic frames, the
  IOCRBlockReq that declares it, the running configuration built from the same layout, and the
  frame that results from writing at its offsets.
- **Gateway framing and byte pipeline** (`Framing`, `GatewayBuffers`, `GatewayServer`,
  `StmStream`, `VfdTcpClient`, `Bridge`, `Config`, `ClientToWire`): the resynchronising block reader
  on both sides, the length-prefixed STM stream, the split of the client frame over devices and
  drive objects, and the way of its bytes into the RT frame.
- **Comms watchdog** (`Watchdog`, `WatchdogTiming`): receive, watchdog, Force and bridge threads as
  interleaved atomic steps over shared buffers, and when a live client is left alone.
- **Connect handshake and cyclic exchange** (`RpcRequest`, `VfdSim`, `Handshake`, `RtFrames`,
  `CyclicExchange`, `RoundTrip`, `PnContext`, `ProfiDrive`): the C controller against the Python device, as
  runs of steps over networks of byte strings that lose, reorder and duplicate datagrams and
  cyclic frames.
- **GSDML lookup** (`GsdmlParser`): attribute lookup and marker search.

Objects and buffers the program updates in place are classes and arrays here. Each method is
proved against a function of its inputs and the old state, and the lemmas are about those
functions, so that runs can be reasoned about. A Python list of records is a `seq` field, and a
bytearray that slice assignment can resize is a `seq<byte>`. Threads are step relations.

Sockets, clocks and threads are parameters: a socket is the peer's bytes plus any schedule of
cuts, timeouts and an error; the clock is a non-decreasing real; whether a socket opens, a thread
starts or an IP address parses is an argument.

## Where the code and its descriptions differ

- The fail-safe (`GatewayServer._zero_outputs`) clears every *non-empty* buffer on the wire. A flat
  STM payload shorter than the configured total shrinks the buffers it does not reach; one it
  empties is no longer written by the bridge, so its drive keeps its last setpoint through a trip
  (`Watchdog.FailSafeOnTheWireIff`, `Watchdog.EmptiedBufferKeepsWire`). Lengths are kept iff the
  payload is long enough (`GatewayBuffers.LengthsKeptIff`), and the next full payload restores them.
- `watchdog_tripped` does not mean the outputs are zero: a payload stamped before the silence can
  be applied after the poll (`Watchdog.StaysZeroIff`, `Watchdog.TrippedNotSafe`); the following poll
  clears it.
- A duplicated ConnectRequest takes a cyclic device back to CONNECTED, so that PN_OK can be returned
  without a cyclic device (`Handshake.ConnectAgreesIff`, `Handshake.DuplicateRequestBreaks`).
- The walk over a ConnectResponse can read behind the receive buffer for a datagram of 2044 bytes or
  more, and never for a shorter one (`Handshake.WalkInsideIff`, `Handshake.OverReads`); no response
  of the simulator is that long.
- A watchdog poll that is held up between reading the last receive and looking at the clock can trip
  on a client that keeps sending (`WatchdogTiming.NeverActsIff`).
- The device writes the RPC packet type at offset 2, the controller reads it at offset 1. The
  controller therefore never recognises a fault or a response by type (`Handshake.RepliesAre`).
- The advised enable sequence never brings the simulator from READY_TO_SWITCH_ON to OPERATION
  (`ProfiDrive.EnableReachesOperationIff`).
- A DCP call while the exchange is active forces the state to idle with the thread running
  (`PnContext.LifecycleKeptIff`).
- With equal input and output frame IDs on an adapter that loops frames back, the controller takes
  its own command for a status (`CyclicExchange.StatusIsWholeIff`). Its defaults differ.

## Model

| member | source | states |
|---|---|---|
| Bytes.ReadsBack16 | src/utils.h:45-71 | Wherever two bytes lie in a buffer, the big- and the little-endian getter return v iff the bytes are those the matching put helper writes for v |
| Bytes.ReadsBackBe32 | src/utils.h:51-63 | The 32-bit big-endian getter returns v iff the four bytes are those the put helper writes for v |
| Bytes.ReadsBackLe32 | src/utils.h:78-96 | The 32-bit little-endian getter returns v iff the four bytes are those the put helper writes for v |
| Bytes.WordBytes | src/utils.h:45-49 | The first byte of a 16-bit word weighs 256 in network order and 1 in Intel order |
| Bytes.WordBytes32 | src/utils.h:51-57 | The same for the four bytes of a 32-bit word |
| Bytes.PadCut | profinet_gateway_py/profinet_ctrl.py:1361 | Byte i of data cut or padded to n bytes is the data's byte where there is one, else 0 |
| Bytes.PutU16Be | src/utils.h:45-49 | Writes the two bytes at the offset and leaves what is before and behind them |
| Bytes.PutU32Be | src/utils.h:51-57 | Writes the four bytes at the offset and leaves what is before and behind them |
| IocrLayout.ComputeLayout | profinet_gateway_py/profinet_ctrl.py:573-606 | The four allocation loops compute the input and the output layout; each declared length is the unpadded size, but at least 40 |
| IocrLayout.LayoutTilesFrame | profinet_gateway_py/profinet_ctrl.py:586-606 | For every sub-module list and both directions the data+IOPS ranges and IOCS bytes ascend, are pairwise disjoint, are together exactly [0, used) and fit the declared length, which is 40 up to 40 used bytes and exactly used beyond |
| IocrLayout.LayoutOwners | profinet_gateway_py/profinet_ctrl.py:578-605 | Whose ranges they are: input objects are all sub-modules in order; output objects those with output; IOCS bytes first the others in place, then those with output at the end |
| IocrLayout.WithOutputMembers | profinet_gateway_py/profinet_ctrl.py:595-604 | The sub-modules with output are exactly those with an output length above 0 |
| IocrLayout.LayoutOffsets | profinet_gateway_py/profinet_ctrl.py:586-606 | Where they lie: sub-module k starts behind the data of the k before it and one status byte for each; the trailing IOCS bytes follow all of them, in order |
| IocrLayout.OverheadEqual | profinet_gateway_py/profinet_ctrl.py:586-606 | Unpadded size minus process data is the sub-module count plus the count with output, in both directions |
| IocrBlock.GroupByApi | profinet_gateway_py/profinet_ctrl.py:888-893 | The dict of lists holds, per API, exactly the objects and IOCS entries of that API in layout order |
| IocrBlock.BuildIocrBlock | profinet_gateway_py/profinet_ctrl.py:880-914 | The builder emits the encoding of the declared layout, or raises struct.error exactly when a field does not fit |
| IocrBlock.DecodeInverts | profinet_gateway_py/profinet_ctrl.py:880-914 | Decoding the emitted block gives back every declared field, API section and entry, and BlockLength counts the bytes behind it |
| IocrAgreement.DeclaredSections | profinet_gateway_py/profinet_ctrl.py:887-903 | API sections ascend; each holds every entry of its API exactly as often as the layout, in layout order, and no other; slot 0 is under API 0 and every other slot under the drive's; every entry has a section |
| IocrAgreement.BlocksSameLength | profinet_gateway_py/profinet_ctrl.py:880-914 | The input and the output block of a topology declare the same APIs and have the same length, 46 + 8 per API + 6 per entry |
| IocrAgreement.EncodableIff | profinet_gateway_py/profinet_ctrl.py:894-914 | struct.error is avoided iff ids, frame length, API numbers, header values and block length fit their fields |
| IocrAgreement.BuildConfig | profinet_gateway_py/profinet_ctrl.py:616-631 | Running IO objects carry the layout's offsets, the IOPS directly behind the data, and the fixed timing |
| IocrAgreement.BuildIocrConfigs | profinet_gateway_py/profinet_ctrl.py:608-644 | The running input configuration carries the layout's data objects only, the output configuration its data objects and IOCS bytes; type, reference, frame ID and the fixed timing are those of each direction |
| IocrAgreement.DeclaredIsRunning | profinet_gateway_py/profinet_ctrl.py:608-644 | What a device decodes from the declared block is what runs: same frame length (40, or the used size above that), and an object or IOCS byte is declared at an offset iff it runs there |
| Golden.GoldenBlocks | profinet_gateway_py/HANDOFF.md:210-222 | For the captured topology the encoder reproduces both reference IOCRBlockReqs byte for byte |
| OutputFrame.OutputFrameImage | profinet_gateway_py/profinet_ctrl.py:613-644 | Writing every data, IOPS and IOCS byte at the running offsets in any order gives the per-sub-module segments, the trailing IOCS and zero padding |
| OutputFrame.OrderIrrelevant | profinet_gateway_py/profinet_ctrl.py:613-644 | Pairwise disjoint writes commute: any order leaves the same frame |
| OutputFrame.CyclicDataBuilder.SetAllIocs | profinet_gateway_py/profinet_ctrl.py:759-764 | Exactly the IOCS bytes of the configuration change |
| OutputFrame.IocsOffsetsAreDeclared | profinet_gateway_py/profinet_ctrl.py:738-764 | Those bytes are exactly the declared IOCS bytes, offset 0 included, inside the frame and never data or IOPS |
| Framing.ReaderIsGreedy | profinet_gateway_py/gateway_server.py:169-186 | A list of positions is where the parser stops iff it is the greedy leftmost chain of valid, non-overlapping blocks with no valid start in a gap |
| Framing.PrintedRoundTrip | profinet_gateway_py/gateway_server.py:146-157 | Reading printed blocks gives the blocks, whatever their payload contains |
| Framing.PrintedBytes | profinet_gateway_py/gateway_server.py:146-157 | A printed block byte by byte: markers, drive number, length in network order, data |
| Framing.ResyncIff | profinet_gateway_py/gateway_server.py:169-186 | Between well-formed blocks and arbitrary bytes the parser stops at exactly the well-formed blocks iff no valid block of the stream starts inside the arbitrary bytes |
| Framing.ResyncDelivers | profinet_gateway_py/gateway_server.py:169-186 | Then all blocks before and after, and nothing else, are delivered |
| Framing.JunkWithoutSof | profinet_gateway_py/gateway_server.py:169-186 | In particular when the arbitrary bytes contain no 0xAA |
| GatewayBuffers.FullPayload | profinet_gateway_py/gateway_server.py:161-168 | A flat payload of at least the configured total leaves each buffer as exactly its slice, also after an earlier payload shrank it |
| GatewayBuffers.LengthsKeptIff | profinet_gateway_py/gateway_server.py:161-168 | A flat payload keeps every buffer's length iff it is at least as long as the configured total |
| GatewayBuffers.ShortPayloadShrinks | profinet_gateway_py/gateway_server.py:161-168 | Witness: a one-byte payload shrinks a four-byte buffer |
| GatewayBuffers.FramedRoundTrip | profinet_gateway_py/gateway_server.py:169-186 | From a framed payload of up to 256 drives the gateway recovers each drive's bytes |
| GatewayBuffers.LastBlockCounts | profinet_gateway_py/gateway_server.py:169-186 | Of several blocks for one drive the last counts, byte by byte; no other buffer changes |
| GatewayBuffers.LastPayloadCounts | profinet_gateway_py/gateway_server.py:161-168 | After any number of flat payloads the buffers hold exactly the last full one |
| GatewayServer.GatewayServer.constructor | profinet_gateway_py/gateway_server.py:120-135 | Buffers start as zeros of the configured lengths |
| GatewayServer.GatewayServer.MonRx | profinet_gateway_py/gateway_server.py:60-69 | Stamps the receive time and clears a trip |
| GatewayServer.GatewayServer.ZeroOutputs | profinet_gateway_py/gateway_server.py:93-97 | Every output buffer becomes zeros of its own length |
| GatewayServer.GatewayServer.SetOutputs | profinet_gateway_py/gateway_server.py:218-225 | The forced bytes replace the head of exactly that device's buffer, its tail, every length and every other buffer stay |
| GatewayServer.GatewayServer.SetInputs | profinet_gateway_py/gateway_server.py:200-204 | The bytes read replace the head of exactly that device's input buffer, byte by byte; its tail and every other buffer stay |
| GatewayServer.GatewayServer.ApplyOutputs | profinet_gateway_py/gateway_server.py:159-186 | The new buffers are those of the flat distribution or of the parsed blocks; no buffer exceeds its configured length |
| GatewayServer.GatewayServer.DistributeFlat | profinet_gateway_py/gateway_server.py:161-168 | Each buffer's head is replaced by its share of the payload |
| GatewayServer.GatewayServer.ParseFramed | profinet_gateway_py/gateway_server.py:169-186 | The in-place parser ends on every byte string in the old buffers with the chain of valid blocks folded over them |
| GatewayServer.GatewayServer.BuildInputs | profinet_gateway_py/gateway_server.py:146-157 | The flat frame is the concatenation of the inputs, the framed one a block per device; struct.error iff some device has more than 65535 bytes |
| GatewayServer.GatewayServer.RecvAll | profinet_gateway_py/gateway_server.py:475-489 | Exactly n bytes in stream order, or nothing when the peer closed or the socket broke |
| GatewayServer.GatewayServer.NextMessage | profinet_gateway_py/gateway_server.py:451-465 | One turn of the receive loop consumes one whole message, one bare header, or ends the connection on an incomplete one |
| GatewayServer.GatewayServer.HandleStm | profinet_gateway_py/gateway_server.py:449-473 | However the stream is cut and whatever times out, the buffers end as if exactly the whole messages of the delivered bytes were applied in order, and a trip is cleared iff one was; without a broken socket all bytes are delivered |
| StmStream.DeliversSent | profinet_gateway_py/gateway_server.py:451-465 | For messages of at most 1,000,000 bytes followed by a cut-off one, exactly the non-empty whole ones are taken, in order |
| StmStream.CompleteAppend | profinet_gateway_py/gateway_server.py:451-465 | Parsing resumes at a message boundary as if the stream began there |
| StmStream.OversizedDropsHeader | profinet_gateway_py/gateway_server.py:455-460 | A header of 0 or more than 1,000,000 is dropped alone; what follows is read as the next header |
| VfdTcpClient.BuildFrame | profinet_gateway_py/vfd_tcp_client.py:312-323 | The client's frame is one block, or one slot, per panel; struct.error iff a slot exceeds 65535 bytes |
| VfdTcpClient.ReadFramed | profinet_gateway_py/vfd_tcp_client.py:346-365 | The client's resynchronising reader ends on every byte string in the values of the chain of valid blocks |
| VfdTcpClient.ClientReadsGateway | profinet_gateway_py/vfd_tcp_client.py:346-365 | From the gateway's frame of up to 256 drives the client recovers the first two words of each drive with at least four bytes, and (0, 0) for the others |
| VfdTcpClient.GatewayReadsClient | profinet_gateway_py/vfd_tcp_client.py:312-320 | After the client's framed command each of up to 256 buffers starts with exactly its panel's STW1 and NSOLL |
| Bridge.SplitConserves | profinet_gateway_py/profinet_ctrl.py:1316-1334 | The chunks handed to the drive objects concatenate to the data padded or cut to the rack's total |
| Bridge.ProfinetCtrl.WriteRawOutputs | profinet_gateway_py/profinet_ctrl.py:1316-1334 | Hands a connected device's drive objects their chunks in rack order: byte p of a row is the data's byte behind the rows before it, or 0 where the data ends early |
| Bridge.ProfinetCtrl.ReadRawInputs | profinet_gateway_py/profinet_ctrl.py:1347-1365 | Byte p of drive object k is the received byte where there is one and 0 elsewhere, behind the bytes of the rows before it; zeros when not connected |
| Bridge.RunOnce | profinet_gateway_py/bridge.py:75-104 | One pass moves each connected device's output buffer to its drive objects and its inputs to the gateway, and touches no other device |
| Bridge.PassMirrors | profinet_gateway_py/bridge.py:84-104 | The mirrored words are the first two of each direction in network order, a device without a map is handed everything under its own slot, and one that is not connected is left alone |
| Bridge.DeviceOutputsConserved | profinet_gateway_py/bridge.py:84-94 | Whatever the other devices are doing: after a full flat frame the next pass hands an online device exactly the frame's bytes for it, and a device that is not online nothing |
| Bridge.OutputsConserved | profinet_gateway_py/bridge.py:84-94 | What the pass hands out, in config order, is the concatenation of the online devices' slices of the frame: nothing lost, duplicated or handed to another device |
| Bridge.OnlineSlicesAll | profinet_gateway_py/bridge.py:84-94 | With every device online those slices are the frame's first total bytes |
| Bridge.InputsConserved | profinet_gateway_py/bridge.py:96-104 | After a pass each input buffer has its configured length and is, for an online device, exactly each drive object's data padded or cut to its length; zeros when connected without a cyclic controller; unchanged otherwise |
| Bridge.InputFrameConserved | profinet_gateway_py/bridge.py:96-104 | With every device online the gateway's flat input frame is that data in config order |
| Bridge.MappedTotals | profinet_gateway_py/config.py:48-64 | A process-data map mirroring the rack has the rack's total lengths |
| ClientToWire.HandedIsProcessData | profinet_gateway_py/profinet_ctrl.py:1325-1332 | Chunks handed by map row are the data of the sub-modules with output, all of it and in topology order; they fill the sub-modules' data ranges iff the configured lengths are the sub-modules' own |
| ClientToWire.ClientBytesOnTheWire | profinet_gateway_py/profinet_ctrl.py:613-644 | End to end: after a full flat client frame and one pass the device is handed exactly the client's bytes for it, sub-module by sub-module; where the configured lengths are the sub-modules' own, writing them at the running offsets gives the RT frame whose data segments, in order, are those bytes |
| ClientToWire.DriveBytesToClient | profinet_gateway_py/profinet_ctrl.py:1347-1365 | The other direction: from any input RT frame cut at the running offsets, one pass leaves in the gateway's buffer exactly the frame's declared data ranges, in topology order |
| ClientToWire.IocsEntriesLoseInput | profinet_gateway_py/profinet_ctrl.py:638-643 | Why the running input configuration must not carry IOCS entries: with them every sub-module with output would lose its input data |
| Watchdog.FailSafe | profinet_gateway_py/gateway_server.py:60-110 | In every interleaving of receive, Force, bridge and watchdog steps: once the client is silent for more than watchdog_ms with no receive pending, the next full poll leaves every output byte zero until a later receive or Force |
| Watchdog.StaysZeroIff | profinet_gateway_py/gateway_server.py:60-110 | Zero outputs, tripped or not, stay zero in every run without a new receive or Force iff no stamped payload with a non-zero effect is still on its way to them |
| Watchdog.FailSafeOnTheWireIff | profinet_gateway_py/bridge.py:84-94 | After the fail-safe poll and one full hop for a device whose connection is steady, zeros are on the wire to it iff it is online, has outputs and a non-empty buffer, or zeros were there before |
| Watchdog.FailSafeOnTheWire | profinet_gateway_py/bridge.py:84-94 | After that poll, one full bridge hop leaves zeros on the wire to an online device that has outputs and whose buffer is not empty |
| Watchdog.ForceReaches | profinet_gateway_py/gateway_server.py:218-225 | In every interleaving without another change of the buffers, the next hop for a forced device holds the forced bytes in front of its old tail; every other buffer is as it was |
| Watchdog.HopDelivers | profinet_gateway_py/bridge.py:84-94 | A hop hands over exactly what the buffer held when it began, to that device only, and only online, with outputs and a non-empty buffer |
| Watchdog.ReceiveCarries | profinet_gateway_py/gateway_server.py:60-69 | A receive stamps the time, clears a trip, and its payload is what gets applied, whatever runs in between |
| Watchdog.ClientReachesWire | profinet_gateway_py/gateway_server.py:161-168 | From client to wire in every interleaving: after a full flat payload is received, applied and carried by one hop, the device was handed exactly the payload's bytes for it |
| Watchdog.TrippedNotSafe | profinet_gateway_py/gateway_server.py:60-110 | Witness for the other half of StaysZeroIff: a payload stamped before the silence lands after the poll, with the watchdog tripped |
| Watchdog.EmptiedBufferKeepsWire | profinet_gateway_py/bridge.py:84-94 | Witness for the other half of FailSafeOnTheWireIff: a buffer emptied by a short flat payload keeps the old setpoint on the wire through poll and bridge |
| WatchdogTiming.NeverActsIff | profinet_gateway_py/gateway_server.py:99-110 | The watchdog never acts on a live client, in any run, iff it is off or the longest gap between two frames plus the longest delay inside a poll is at most watchdog_ms |
| WatchdogTiming.SlowPoll | profinet_gateway_py/gateway_server.py:99-110 | Witness: for every longer gap and delay a run in which the poll is about to zero the outputs although every frame came in time |
| RpcRequest.BuildArBlock | src/rpc_cm.c:75-92 | Emits the AR block: type, BlockLength counting what follows the version, and every field at its place |
| RpcRequest.BuildIocrBlock | src/rpc_cm.c:95-136 | Emits an IOCR block: type, BlockLength counting what follows the version, and every field at its place, defaults for clock, reduction and watchdog included |
| RpcRequest.BuildExpSubmodBlock | src/rpc_cm.c:139-161 | Emits the ExpectedSubmodule block: API at 2, slot at 6, module identifier at 8, sub-slot at 16, sub-module identifier at 18, both data lengths 4; BlockLength counts what follows the version |
| RpcRequest.BuildAlarmCrBlock | src/rpc_cm.c:164-177 | Emits the AlarmCR block with every field at its place; BlockLength counts what follows the version |
| RpcRequest.BuildHeader | src/rpc_cm.c:45-62 | Fills the first 40 bytes, every field at its place, and leaves the payload |
| RpcRequest.BuildConnectRequest | src/rpc_cm.c:221-262 | Emits header and the five blocks packed without padding |
| RpcRequest.BuildWriteRequest | src/rpc_cm.c:310-327 | Emits the record-0 write |
| RpcRequest.BuildDControlRequest | src/rpc_cm.c:331-345 | Emits the ApplicationReady DControl |
| RpcRequest.BuildCControlResponse | src/rpc_cm.c:366-377 | Emits the answer to a CControl |
| RpcRequest.ConnectFields | src/rpc_cm.c:221-262 | The ConnectRequest is header, AR, output IOCR, input IOCR, expected sub-module and alarm block, each at its place with every field |
| RpcRequest.LaterFields | src/rpc_cm.c:310-377 | The fields of the write, the DControl and the CControl answer |
| VfdSim.VisitsPacked | simulator/vfd_sim.py:417-448 | The walker visits exactly the blocks of any list packed without padding |
| VfdSim.RequestUnderstood | simulator/vfd_sim.py:417-448 | From the controller's ConnectRequest the device recovers AR UUID, session key, MAC, both frame IDs, IOCR references and send clock, for all field values and any station name |
| VfdSim.BlockTable | simulator/vfd_sim.py:417-448 | Which block changes which parameter: long enough AR blocks and IOCR blocks by type, nothing else |
| VfdSim.EmptyConnect | simulator/vfd_sim.py:408-415 | A Connect without blocks forgets everything negotiated but the MAC |
| VfdSim.VfdSim.RpcConnect | simulator/vfd_sim.py:408-511 | Resets, walks and stores the request's parameters and answers with the ConnectResponse |
| VfdSim.VfdSim.WalkBlocks | simulator/vfd_sim.py:417-448 | The walk stores what the visited blocks say, in order |
| VfdSim.VfdSim.RpcDControl | simulator/vfd_sim.py:524-569 | Answers a DControl and, on ApplicationReady, becomes cyclic and sends its own CControl |
| VfdSim.ResponseFields | simulator/vfd_sim.py:455-511 | The ConnectResponse field by field: header, AR, both IOCRs, alarm and module-difference block |
| VfdSim.ReplyFields | simulator/vfd_sim.py:513-569 | The fields of the answers to DControl, Release and Write and of the device's own CControl |
| VfdSim.DatagramTable | simulator/vfd_sim.py:596-613 | What the device does per operation number; too short or unknown datagrams are dropped, Release takes it back to LISTENING |
| Handshake.ParseFrameIds | src/rpc_cm.c:288-304 | The response walk ends on every datagram the buffer can hold, in the frame IDs of the visited blocks, or reports that it reads past the buffer |
| Handshake.FrameIdTable | src/rpc_cm.c:290-304 | Which block names which frame ID, and that blocks follow each other at even distances |
| Handshake.OverReadIff | src/rpc_cm.c:288-304 | For any buffer size: the walk reads past its buffer iff some block with a frame ID starts so close to the buffer's end that the ID lies behind it; never when six bytes of the buffer are free |
| Handshake.WalkInsideIff | src/rpc_cm.c:288-304 | Every datagram of a given length is walked inside the 2048-byte buffer, whatever it and the stale bytes behind it hold, iff the length is at most 2043 |
| Handshake.OverReads | src/rpc_cm.c:288-304 | Witness: one datagram that makes the walk read past the buffer when 2044 to 2048 of its bytes are received |
| Handshake.ResponseUnderstood | src/rpc_cm.c:288-304 | On any response of the simulator the walk takes the status as one empty block, visits each block once and sets exactly the frame IDs the simulator stored |
| Handshake.OnRequest | simulator/vfd_sim.py:408-511 | The device on the ConnectRequest's bytes stores the proposal and answers |
| Handshake.RepliesAre | simulator/vfd_sim.py:401-406 | Every reply carries its opnum where the controller reads it, and packet type 0 at the controller's offset 1 |
| Handshake.InvKept | src/rpc_cm.c:221-389 | Every send, receive, timeout, loss, duplication and device step keeps the handshake invariant, unless it duplicates the ConnectRequest |
| Handshake.ConnectAgrees | src/rpc_cm.c:221-389 | In every run with datagrams lost, reordered and, except for the ConnectRequest, duplicated, PN_OK implies the device is cyclic and holds the controller's AR UUID, session key, MAC and frame IDs, and the controller still uses the IDs it proposed |
| Handshake.ConnectAgreesIff | src/rpc_cm.c:221-389 | For every controller and every listening device: all runs agree iff ConnectRequests are not among the datagrams the network duplicates |
| Handshake.ConnectSucceeds | src/rpc_cm.c:221-389 | For every controller and listening device there is a run without loss or duplicates that returns PN_OK |
| Handshake.GivesUp | src/rpc_cm.c:277-385 | The attempt fails without an answer, on one that is too short or a fault, and without a report of readiness; nothing else ends the wait |
| Handshake.DuplicateRequestBreaks | simulator/vfd_sim.py:408-511 | The run that breaks it: PN_OK is returned while the duplicate has taken the device back to CONNECTED |
| RtFrames.OutputFields | src/rt_cyclic_linux.c:18-37 | The device finds ethertype, frame ID, IOPS and both command words where the controller puts them |
| RtFrames.InputFields | simulator/vfd_sim.py:366-398 | The controller finds frame ID, IOPS and the status telegram where the device puts them |
| RtFrames.TelegramReadsBack | src/profidrive.c:4-17 | Decoding an encoded telegram 1 gives both words back |
| RtFrames.OutputBytes | src/rt_cyclic_linux.c:18-37 | The command frame byte by byte: addresses, ethertype, ID, IOPS, data, IOCS, cycle counter, status |
| RtFrames.InputBytes | simulator/vfd_sim.py:380-396 | The status frame byte by byte, zeros up to 60 |
| RtFrames.EnableBits | simulator/vfd_sim.py:226-235 | The drive runs iff STW1 bits 0, 3 and 6 are set, whatever the other bits are |
| RtFrames.AnswerTable | simulator/vfd_sim.py:226-235 | The answers: running with the commanded speed, switched on without it, or off |
| RtFrames.DriveTakesSetpoint | simulator/vfd_sim.py:338-364 | A cyclic device takes both words of every good frame of its ID and, simulating, answers exactly them |
| RtFrames.DriveIgnores | simulator/vfd_sim.py:338-364 | It takes nothing from a short or bad frame or one of another ID or ethertype, and nothing while not cyclic |
| RtFrames.ControllerTakes | src/rt_cyclic_linux.c:40-57 | The controller takes exactly the configured number of bytes from every good frame of its ID |
| RtFrames.ControllerIgnores | src/rt_cyclic_linux.c:40-57 | And nothing from any other |
| VfdSim.VfdSim.PacketReceived | simulator/vfd_sim.py:349-364 | Only a good cyclic frame of the negotiated ID changes the drive's words |
| VfdSim.VfdSim.CyclicRx | simulator/vfd_sim.py:338-347 | Both command words are taken, in Intel order, from one good frame and answered together if the drive simulates; any other frame changes nothing |
| VfdSim.VfdSim.BuildInputFrame | simulator/vfd_sim.py:380-396 | The device's cyclic frame carries its current status pair |
| CyclicExchange.StatusIsWhole | src/api.c:345-370 | In every run with frames lost, duplicated or reordered, on a link that does not loop frames back or whose frame IDs differ, PN_DriveStatus returns (0, 0) or the drive's answer to one whole earlier setpoint pair; NIST_A is non-zero only if exactly it was commanded with STW1 bits 0, 3 and 6 |
| CyclicExchange.StatusIsWholeIff | src/rt_cyclic_linux.c:110-118 | This holds of every run of a link iff the link does not both loop frames back and use equal frame IDs, where the controller reads its own command as a status |
| CyclicExchange.InvKept | src/rt_cyclic_linux.c:18-57 | Every setpoint, send and receive step keeps every buffer and frame the image of one written pair |
| CyclicExchange.SetpointRoundTrip | src/api.c:345-370 | From any state of a cyclic link: set, send, receive, answer, receive leaves the drive's answer to exactly the pair set |
| RoundTrip.SetpointComesBack | src/api.c:345-370 | The same from PN_DriveSetpoint over the frames' bytes to the words PN_DriveStatus reads, whatever was in the buffers and the drive before |
| PnContext.Context.constructor | src/api.c:19-63 | The initial context: idle, stop telegram, zero inputs |
| PnContext.Context.CyclicStart | src/rt_cyclic_linux.c:141-177 | Starts once, restores default lengths and the stop telegram, and undoes the running flag when the thread does not start |
| PnContext.Context.Connect | src/api.c:228-277 | Every success and failure path of the connect call, with its return code |
| PnContext.Context.Disconnect | src/api.c:279-302 | Stops thread, socket and statistics when active |
| PnContext.Context.WriteOutputs | src/api.c:315-327 | Copies at most 256 bytes when active |
| PnContext.Context.ReadInputs | src/api.c:329-339 | Copies as many bytes as both sides have, when active |
| PnContext.Context.DriveSetpoint | src/api.c:345-357 | Stores one whole telegram when active |
| PnContext.Context.DriveStatus | src/api.c:359-370 | Reads both words of the input buffer when active |
| PnContext.Context.ResetStats | src/api.c:386-396 | Statistics flags follow state and thread |
| PnContext.Context.BuildOutput | src/rt_cyclic_linux.c:18-37 | The built frame fits its buffer for every output length up to 256 and has every field at its place, an IOPS of 0 going out as good |
| PnContext.Context.SendOutput | src/rt_cyclic_linux.c:90-104 | Pads to 60 bytes and advances the cycle counter |
| PnContext.Context.FrameReceived | src/rt_cyclic_linux.c:110-118 | Only a long enough good frame of the input ID replaces the input bytes |
| PnContext.LifecycleKeptIff | src/api.c:164-302 | Every call keeps 'active iff thread runs iff socket open iff statistics say connected', except a DCP call with good arguments, which keeps it iff the exchange is not active |
| PnContext.LifecycleOverRuns | src/api.c:228-396 | Over every sequence of calls without a DCP exchange while active the lifecycle holds and every built frame fits |
| PnContext.ConnectOutcome | src/api.c:228-277 | PN_Connect succeeds iff nothing stands in its way, then with the stop telegram and default lengths in place; each refusal and failure has its own code and leaves no socket |
| PnContext.WriteOutcome | src/api.c:315-327 | Outputs are taken iff active and at most 256 bytes; exactly their bytes change |
| PnContext.SetpointOutcome | src/api.c:345-357 | A setpoint is taken iff active: both words in Intel order in the first four bytes, the rest stays |
| PnContext.DisconnectOutcome | src/api.c:279-302 | Closes everything, touches no buffer, and does nothing when there is no exchange |
| PnContext.FrameOutcome | src/rt_cyclic_linux.c:110-118 | A received frame changes the input bytes only: exactly the configured number, and only if it is good and of the ID |
| PnContext.OtherOutcomes | src/api.c:164-221 | Resetting statistics and refused DCP calls change nothing; a DCP call leaves the idle state |
| ProfiDrive.StateTable | src/profidrive.c:31-43 | The state by the four low bits of ZSW1, for every value |
| ProfiDrive.EnableTable | src/profidrive.c:45-64 | The word advised in each state |
| ProfiDrive.StateOfStatus | src/profidrive.c:31-43 | Against the simulator the state is OPERATION iff STW1 bits 0, 3 and 6 are set, else READY_TO_SWITCH_ON |
| ProfiDrive.EnableReachesOperationIff | src/profidrive.c:45-64 | The advised enable sequence reaches OPERATION iff the drive already reported SWITCHED_ON or OPERATION |
| GsdmlParser.GetAttr | src/gsdml_parser.c:55-88 | Finds what the lookup finds, copies the value cut to the buffer and terminates it |
| GsdmlParser.FindsFirst | src/gsdml_parser.c:55-88 | On any white-space separated attribute list and for any name without '=' or without a quote character the lookup returns the first value whose name is exactly the one asked for, or nothing, even when values contain white space or look-alike text |
| GsdmlParser.FindsFirstIff | src/gsdml_parser.c:55-88 | For every other name: the lookup is right iff no attribute looks as if it had that name |
| GsdmlParser.NameWithEqualsMatches | src/gsdml_parser.c:55-88 | Witness: the name a="b matches into the value of a="b=" |
| GsdmlParser.UnquotedFails | src/gsdml_parser.c:63-65 | A name followed by '=' but no quote ends the search without a value |
| GsdmlParser.BlankSkipped | src/gsdml_parser.c:60-61 | Any leading character up to 32 is skipped |
| GsdmlParser.XmlBuf.SkipTo | src/gsdml_parser.c:39-50 | Stops behind the first occurrence of the marker, or reports that there is none |

## Left out

- `profinet-py`'s own encoders, its cyclic controller and its RPC connection: calls into code that
  is not part of this model; writing at a configured offset is all that is assumed of them.
- The plain TCP and UDP servers and `_recv_exact`, which drops a partial frame after a stall; they
  end in the same two steps as the STM receiver.
- Stopping the gateway while a receive is in progress (`_running` becoming false inside
  `_recv_all`), which ends the connection like a disconnect.
- DCP in both directions, IODWrite contents, alarms, the Release datagram's bytes and
  `simulator/pn_device.c`: no round trip holds between the two sides there.
- Several sessions over one device.
- Monitor counters, jitter statistics, cycle timing, logging, bitmaps, configuration files and the
  user interface.
- The parts of the GSDML parser above attribute lookup and marker search.
- `Handshake.ConnectAgrees`: the identifiers the controller generates at the start are part of the
  initial state; their uniqueness is not modelled.
- `ClientToWire.ClientBytesOnTheWire`: that the process-data map lists the sub-modules with output in
  topology order is a hypothesis; how both are built from the GSDML is not modelled. The map's
  lengths come from the configuration, the sub-modules' from the GSDML with the telegram ident
  overridden; where they differ, what reaches the frame is up to `profinet-py`, which is not part of
  this model.
- `ClientToWire.DriveBytesToClient`: the same for the input rows of the map and their lengths, and
  that no two sub-modules share slot and subslot; that `profinet-py` cuts a frame at the configured
  offsets and keeps the last object of a sub-module is assumed.
- `Bridge.RunOnce`: device records are values in a sequence, so two list entries never alias; an
  exception inside the controller's write, which the program swallows, is not modelled.
- `Watchdog.FailSafe`: the log lines and the monitor counters written in the same steps are left
  out; `_mon_rx` is two steps, stamping and clearing the trip.
