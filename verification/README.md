# Verified model of the HSF gateway core

The gateway connects card readers, PLCs, a message broker and a web page, and lets Lua scripts drive them. This project
models the parts of it whose correctness is hardest to see and proves what they are for. The modules:

- **Modbus.** `Bytes`, `ModbusCrc` and `ModbusRtuFrame`: the CRC-16 of the serial line and the frames it protects;
  `ModbusCrcDivision`: the polynomial division it computes. `ModbusRegisterStore`, `ModbusPdu` and `ModbusProtocol`: the
  four address areas and the request handler, proved against a map from area and address to value; `ModbusWire`: the same
  handler byte by byte. `ModbusRtuSlave`, `ModbusRtuMaster`, `ModbusClient`: reassembling the byte
  stream and the exchanges between the two ends. `ModbusCodec`: typed registers in four byte orders; `ModbusCodecOrder`: which
  register and byte carries what. `ModbusRegistry`:
  the named dashboard points and their owners. The formats follow sections 6.1-6.6, 6.11, 6.12 and 7 of the MODBUS
  Application Protocol V1.1b3 and sections 2.5.1 and 2.5.1.2 of MODBUS over Serial Line V1.02.
- **Script life cycle.** `LuaRuntimeManager`: starting, stopping, restarting, pruning and reaping runtimes as atomic steps
  of any number of callers and script threads. `LuaRuntimeSafety`: what holds in every run. `LuaRuntimeStarts`: what holds
  while starts of one name do not overlap. `LuaRuntimeStops`: what Stop and StopAll leave behind. `LuaRuntimeOutcomes`:
  what Start, Restart, Stop and Prune have done when they return. `LuaRuntimeFailures`: runs that fall short.
- **Message broker.** `MqOutbox`: the outbound queue under concurrent publishers, failures and reconnects. `MqConsumer`:
  the consumer under Pause, with the requests and replies of basic.consume and basic.cancel (section 1.8.3 of the AMQP
  0-9-1 reference) delayed but in order.
- **HTTP hand-off.** `HttpHandoff`: the bounded queue between web threads, the script and its shutdown.
- **Configuration.** `Json`, `ConfigSchema` and `DynamicConfig`: schemas, defaults, validation, merging, storing.
  `ConfigErrors`: which errors validation reports and what the defaults hold. `ConfigMasking`: sending back what a masked read shows. `ConfigRuns`: runs of registrations, updates and reads.
- **Logs.** `LikeEscape`: keyword search through SQL LIKE. `LogStream`: per-category rings and the poller that follows them.

Sequential code keeps its own form: classes with fields updated in place and methods with loops, each proved against a
function of the old state. Protocols of several threads are state machines: `Enabled` and `Apply` give one atomic step, a
run is a sequence of steps, and the theorems hold at every state of every run. Histories (`Accepted`, `Handed`,
`Completed`) are functions of the run, not part of the state.

Where the code falls short of what it is evidently for, the model follows the code. The failure is shown by a concrete run
or input, and the exact condition under which the promise holds is proved where there is one:

- the serial slave's read replies have no function code, so no read by the repository's own serial master succeeds
  (`ReadsNeverSucceed`), and a byte that is no known function code stalls the slave for good (`StuckIffStalled`);
- the master counts an exception reply to a write as success (`WriteEndToEnd`);
- a 16- or 32-bit register accepts an unsigned JSON number of 2^63 or more that wraps into range
  (`LargeUnsignedSlipsThrough`), and a string of odd length accepts one byte more than it returns (`OddLengthLosesAByte`);
- overlapping starts of one script can lose a thread (`LostIffOverwritten`, `OverlapLosesThread`), StopAll leaves a failed
  script's thread unjoined (`StopAllOutcome`, `StopAllLeavesFailedThread`), and a Stop that comes before the script's
  code has begun leaves its engine running behind a terminal phase (`EngineUpIffEarly`, `EarlyStopLeavesEngineUp`);
- Flush can answer true while a message is in flight and about to return to the queue (`FlushMeans`, `FlushTooEarly`);
- registering a schema again drops the stored values (`ReRegistrationKeepsIff`), can overwrite another project's
  (`RegisterKeepsIff`), turns keys into projects once they are read (`ReadKeepsIff`) and shows secrets under their own key
  (`SecretShownIff`); two fields of one key, or an object value, can keep a masked document from coming back unchanged
  (`MaskedRoundTrip`); a default or an array group below the first level of groups can make a schema fail its own
  validation (`DefaultsKnownIff`);
- a NUL in a search keyword turns `contains` into `ends with` (`ExactIffNoNul`).

Check the project with `dafny verify dfyconfig.toml`.

## Model

| member | source | states |
|---|---|---|
| `ModbusCrc.ModbusRtuCrc16` | src/ModbusRtu.cpp:21-28 | the nested loops compute the CRC defined by recursion over the bytes |
| `ModbusCrc.CrcIsBitwise` | src/ModbusRtu.cpp:21-28 | the bytewise checksum is the bit-serial one over the bits in transmission order |
| `ModbusCrc.CrcBitsLinear` | src/ModbusRtu.cpp:23-26 | linearity: the XOR of two checksums is the checksum of the XOR of seeds and strings |
| `ModbusCrc.ZeroAfterBits` | src/ModbusRtu.cpp:23-26 | up to 16 bits bring the register to zero if and only if they spell the register itself |
| `ModbusCrc.BurstDetected` | src/ModbusRtu.cpp:21-28 | no nonzero pattern of up to 16 bits, anywhere in a string of any length, has a zero checksum |
| `ModbusCrc.CrcBitsParity` | src/ModbusRtu.cpp:23-26 | the parity of the register tracks the number of ones in the string |
| `ModbusCrcDivision.CrcIsRemainder` | src/ModbusRtu.cpp:21-28 | for every byte string the checksum is the remainder of a long division by x^16 + x^15 + x^2 + 1 over GF(2): data bits in transmission order, sixteen zeros, the first sixteen complemented; highest power in the lowest bit |
| `ModbusCrcDivision.RegisterIsRemainder` | src/ModbusRtu.cpp:23-26 | from any register value, the register after a bit string is the remainder of the coefficients in hand |
| `ModbusRtuFrame.ParseInvertsBuild` | src/ModbusRtu.cpp:30-55 | a frame parses to a unit and PDU if and only if the PDU is nonempty and the frame is the one built from them |
| `ModbusRtuFrame.AcceptedIffZero` | src/ModbusRtu.cpp:39-55 | a frame of at least four bytes is accepted if and only if the CRC over all of it is zero |
| `ModbusRtuFrame.BurstRejected` | src/ModbusRtu.cpp:21-55 | every alteration of an accepted frame confined to 16 consecutive bits is rejected, at any frame length |
| `ModbusRtuFrame.AdjacentBytesRejected` | src/ModbusRtu.cpp:21-55 | every alteration confined to two adjacent bytes is rejected |
| `ModbusRtuFrame.OddFlipsRejected` | src/ModbusRtu.cpp:21-55 | every alteration of an odd number of bits is rejected |
| `ModbusCrc.PairDetectedIff` | src/ModbusRtu.cpp:23-26 | two set bits at a distance bring a zero register back to zero if and only if that many steps lead the register from 1 to 1 |
| `ModbusRtuFrame.TwoFlipsAcceptedIff` | src/ModbusRtu.cpp:21-55 | a frame with two flipped bits is accepted if and only if their distance is a period of the register started at 1, for any frame, length and position |
| `ModbusRegisterStore.SpanIsCovered` | src/ModbusRegisterStore.cpp:48-56 | the comparisons of ValidateSpan hold if and only if every address of a nonempty span is configured |
| `ModbusRegisterStore.RegisterStore.Configure` | src/ModbusRegisterStore.cpp:31-71 | an accepted range becomes the area's addresses with cleared values, a refused one changes nothing; other areas stay |
| `ModbusRegisterStore.RegisterStore.ReadBits` | src/ModbusRegisterStore.cpp:78-90 | answers the slice of the area's map if and only if it is a bit area and the span is configured |
| `ModbusRegisterStore.RegisterStore.WriteBits` | src/ModbusRegisterStore.cpp:92-105 | overwrites exactly the span in the area's map, or refuses and changes nothing |
| `ModbusRegisterStore.RegisterStore.ReadRegisters` | src/ModbusRegisterStore.cpp:107-119 | answers the slice of the area's map if and only if it is a register area and the span is configured |
| `ModbusRegisterStore.RegisterStore.WriteRegisters` | src/ModbusRegisterStore.cpp:121-134 | overwrites exactly the span in the area's map, or refuses and changes nothing |
| `ModbusPdu.PackLoop` | src/ModbusProtocol.cpp:64-68 | the packing loop of the handler builds the byte form of the bits, low bit first |
| `ModbusPdu.UnpackOfPack` | src/ModbusProtocol.cpp:64-68 | unpacking packed bits returns them, for every number of bits |
| `ModbusPdu.WordsOfBytes` | src/ModbusProtocol.cpp:82-84 | big-endian registers written into any message are read back at their offset |
| `ModbusProtocol.ModbusProtocol.Handle` | src/ModbusProtocol.cpp:47-143 | the handler over the vectors answers, and leaves the store, as the meaning of the PDU over the address map says |
| `ModbusProtocol.ModbusProtocol.HandleReadBits` | src/ModbusProtocol.cpp:54-70 | functions 1 and 2: the byte-count-and-data block of the stored bits, or the exception the request earns; no change |
| `ModbusProtocol.ModbusProtocol.HandleReadRegisters` | src/ModbusProtocol.cpp:72-85 | functions 3 and 4: the byte-count-and-data block of the stored registers, or the exception; no change |
| `ModbusProtocol.ModbusProtocol.HandleWriteSingle` | src/ModbusProtocol.cpp:87-106 | functions 5 and 6: sets the one value and echoes the request, or refuses and changes nothing |
| `ModbusProtocol.ModbusProtocol.HandleWriteCoils` | src/ModbusProtocol.cpp:108-123 | function 15: stores exactly the unpacked bits and echoes the header, or refuses and changes nothing |
| `ModbusProtocol.ModbusProtocol.HandleWriteRegisters` | src/ModbusProtocol.cpp:125-140 | function 16: stores exactly the unpacked registers and echoes the header, or refuses and changes nothing |
| `ModbusProtocol.OnePdu` | src/ModbusProtocol.cpp:47-143 | for every PDU: read-only areas never change, no address comes or goes, silence and exceptions change nothing |
| `ModbusProtocol.OnlyNamedCellsChange` | src/ModbusProtocol.cpp:87-140 | every coil and register keeps its value unless this PDU names it, and then has the value given for it |
| `ModbusProtocol.EveryRun` | src/ModbusProtocol.cpp:47-143 | after any run of PDUs each coil and register holds the last value an accepted write gave it, or its first value |
| `ModbusWire.BitReads` | src/ModbusProtocol.cpp:54-70 | functions 1 and 2 byte by byte: quantity 1 to 2000 or exception 3, a configured span or exception 2, byte count and each cell's bit |
| `ModbusWire.RegisterReads` | src/ModbusProtocol.cpp:72-85 | functions 3 and 4 byte by byte: quantity 1 to 125, exceptions 3 and 2, each cell high byte first |
| `ModbusWire.CoilWrites` | src/ModbusProtocol.cpp:87-106 | function 5: FF00 sets, 0000 clears, anything else is exception 3; the request is echoed |
| `ModbusWire.RegisterWrites` | src/ModbusProtocol.cpp:87-106 | function 6: the register becomes the number in the last two bytes |
| `ModbusWire.CoilSpanWrites` | src/ModbusProtocol.cpp:108-123 | function 15: 1 to 1968 coils with a matching byte count and length, each coil its data bit, all others as before |
| `ModbusWire.RegisterSpanWrites` | src/ModbusProtocol.cpp:125-140 | function 16: 1 to 123 registers with a matching byte count and length, each register its two data bytes, all others as before |
| `ModbusWire.OtherRequests` | src/ModbusProtocol.cpp:47-143 | exactly the PDUs too short for their function are not answered; every other function code is exception 1 |
| `ModbusClient.WriteCoilsPdu` | src/ModbusClient.cpp:182-201 | the packing loop builds header, byte count and packed bits, casts included; an empty vector is refused |
| `ModbusClient.WriteRegistersPdu` | src/ModbusClient.cpp:242-256 | the loop builds header, byte count and big-endian registers, casts included; an empty vector is refused |
| `ModbusClient.DecodeBits` | src/ModbusClient.cpp:148-171 | the decoding loop returns the first bits of the data bytes, as many as asked for and present |
| `ModbusClient.DecodeRegisterBlock` | src/ModbusClient.cpp:206-230 | the decoding loop returns the registers of the data block, as many as the byte count says and are present |
| `ModbusClient.CoilsDecode` | src/ModbusClient.cpp:182-201 | the handler reads the client's PDU as exactly those coils, and refuses every vector over 1968 even where casts wrap |
| `ModbusClient.CoilsArrive` | src/ModbusClient.cpp:182-201 | 1 to 1968 coils on a configured span are stored exactly; otherwise an exception answers and nothing changes |
| `ModbusClient.RegistersArrive` | src/ModbusClient.cpp:242-256 | 1 to 123 registers on a configured span are stored exactly; otherwise an exception answers and nothing changes |
| `ModbusClient.BitsComeBack` | src/ModbusClient.cpp:162-169 | for 1 to 2000 bits the client's loop over the handler's data block returns exactly the stored bits |
| `ModbusClient.RegistersComeBack` | src/ModbusClient.cpp:206-230 | for 1 to 125 registers the client's loop over the handler's data block returns exactly the stored registers |
| `ModbusRtuSlave.Slave.Turn` | src/ModbusRtu.cpp:246-265 | one turn of the receive loop on the buffer, the store and the port does what the stream functions say |
| `ModbusRtuSlave.Slave.Run` | src/ModbusRtu.cpp:246-265 | any sequence of reads leaves the buffer the stream functions say and the store as handling the requests handed on, in order |
| `ModbusRtuSlave.SizeOfPrefix` | src/ModbusRtu.cpp:218-226 | the expected size is stable: any beginning of a stream that starts with a request gives its frame size or says unknown, and gives it once the whole frame is in |
| `ModbusRtuSlave.SplitInvariant` | src/ModbusRtu.cpp:246-265 | after any reads of any split, the mail handed on is that of the frames taken and the buffer begins the frames to come |
| `ModbusRtuSlave.Reassembly` | src/ModbusRtu.cpp:246-265 | any split of a stream of well-formed requests hands on exactly this unit's requests, in order, with no bytes left |
| `ModbusRtuSlave.StreamEffect` | src/ModbusRtu.cpp:246-265 | any split of a stream does to the store what handling this unit's requests one after the other does |
| `ModbusRtuSlave.StallIsForever` | src/ModbusRtu.cpp:218-226 | behind an unknown function code the buffer only grows and nothing is handed on, for any further input |
| `ModbusRtuSlave.StuckIffStalled` | src/ModbusRtu.cpp:218-226 | a buffer can never give up a byte if and only if its second byte is no known function code |
| `ModbusRtuMaster.Receive` | src/ModbusRtu.cpp:88-128 | the receive loop's outcome is a function of the bytes, however they are split, in all four outcomes |
| `ModbusRtuMaster.VerdictIsStable` | src/ModbusRtu.cpp:57-68 | once the response size is known, later bytes do not change the outcome |
| `ModbusRtuMaster.WriteLayout` | src/ModbusRtu.cpp:152-214 | each write request byte by byte, and exactly when none is sent |
| `ModbusRtuMaster.WriteHandled` | src/ModbusRtu.cpp:152-214 | each write request is well formed and handling it stores exactly its values, or changes nothing and answers an exception |
| `ModbusRtuMaster.ReplyAccepted` | src/ModbusRtu.cpp:57-128 | the slave's echo and its exception both pass the master's size, CRC, unit and function checks |
| `ModbusRtuMaster.WriteEndToEnd` | src/ModbusRtu.cpp:57-214 | framed, split, reassembled, parsed and handled, a write sets exactly its values or changes nothing, and its reply is accepted; it is an exception exactly when the span is not configured |
| `ModbusRtuMaster.ReadBits` | src/ModbusRtu.cpp:130-150 | argument checks, answer, length checks and decoding loop give the bits of the answer or refuse |
| `ModbusRtuMaster.ReadRegisters` | src/ModbusRtu.cpp:164-184 | argument checks, answer, length checks and decoding loop give the registers of the answer or refuse |
| `ModbusRtuMaster.StandardReplyAccepted` | src/ModbusRtu.cpp:57-128 | the standard answer to a read, function code, byte count and 1 to 255 data bytes, is accepted, complete with its last byte and not before |
| `ModbusRtuMaster.StandardBitsRead` | src/ModbusRtu.cpp:130-150 | 1 to 2000 bits read from a standard slave are exactly the bits it packed, however the answer is split |
| `ModbusRtuMaster.StandardRegistersRead` | src/ModbusRtu.cpp:164-184 | 1 to 125 registers read from a standard slave are exactly the registers it sent, however the answer is split |
| `ModbusRtuMaster.DataBlockRejected` | src/ModbusRtu.cpp:115-128 | no read reply that starts with the byte count passes the master's checks |
| `ModbusRtuMaster.ReadsNeverSucceed` | src/ModbusRtu.cpp:130-184 | for every store, unit, function 1-4, address and quantity the master's read of this slave fails |
| `ModbusCodec.ToBytes` | src/ModbusCodec.cpp:24-42 | the loop orders words and bytes as the two swaps say |
| `ModbusCodec.FromBytes` | src/ModbusCodec.cpp:45-56 | the loop gathers byte pairs into words under the two swaps |
| `ModbusCodec.ReadBigEndian` | src/ModbusCodec.cpp:58-64 | the loop reads the number the bytes spell in base 256 |
| `ModbusCodec.WriteBigEndian` | src/ModbusCodec.cpp:66-70 | the loop appends the base-256 digits of the value |
| `ModbusCodec.OrdersInvert` | src/ModbusCodec.cpp:24-56 | registers to bytes and bytes to registers undo each other under all four orders |
| `ModbusCodec.SpelledOfSpell` | src/ModbusCodec.cpp:58-70 | reading what was written returns every value that fits |
| `ModbusCodec.SpellOfSpelled` | src/ModbusCodec.cpp:58-70 | writing what was read returns the same bytes |
| `ModbusCodec.DecodeRegisters` | src/ModbusCodec.cpp:150-221 | decoding as the source does it, by slices, loops and casts, is the decoding specification, errors included |
| `ModbusCodec.DecodeText` | src/ModbusCodec.cpp:205-216 | the text loop stops at NUL and the trimming loop drops trailing blanks |
| `ModbusCodec.EncodeRegisters` | src/ModbusCodec.cpp:244-342 | encoding as the source does it, padding and range checks included, is the encoding specification |
| `ModbusCodec.EncodeThenDecode` | src/ModbusCodec.cpp:281-342 | an accepted integer decodes to its value as the type's cast leaves it, in all six types and four orders |
| `ModbusCodec.IntegerSurvivesIff` | src/ModbusCodec.cpp:281-342 | an integer survives encode and decode if and only if the type represents it; 16- and 32-bit types accept exactly the values whose signed 64-bit reading is in range |
| `ModbusCodec.DecodeThenEncode` | src/ModbusCodec.cpp:150-179 | encoding what was decoded returns the same registers, in all six types and four orders |
| `ModbusCodecOrder.DecodePositional` | src/ModbusCodec.cpp:150-179 | an integer decodes to the sum of its registers, bytes exchanged under a byte swap, times the power of 65536 their place says, reversed under a word swap, in two's complement |
| `ModbusCodecOrder.EncodePositional` | src/ModbusCodec.cpp:281-342 | register i of an encoded integer is the digit in base 65536 of the raw value that its place says |
| `ModbusCodecOrder.SurvivesIffRepresents` | src/ModbusCodec.cpp:281-342 | an integer comes back if and only if it lies in its type's range, written out for all six types; a signed 64-bit value is refused if and only if a 16- or 32-bit type cannot represent it |
| `ModbusCodecOrder.DecodeTextPositional` | src/ModbusCodec.cpp:205-216 | a text decodes from the high and low bytes of its registers, place by place, up to its length |
| `ModbusCodecOrder.EncodeTextPositional` | src/ModbusCodec.cpp:244-259 | the registers of an encoded text carry its bytes, then zeros, place by place |
| `ModbusCodec.LargeUnsignedSlipsThrough` | src/ModbusCodec.cpp:281-310 | 2^64 - 1 is accepted as an int16 and comes back as -1 |
| `ModbusCodec.TextSurvivesIff` | src/ModbusCodec.cpp:205-259 | a string survives if and only if it is at most `length` bytes, has no NUL and does not end in a blank, under every swap |
| `ModbusCodec.OddLengthLosesAByte` | src/ModbusCodec.cpp:143-146 | with an odd length one byte more is accepted and then lost |
| `ModbusRegistry.Upsert` | src/ModbusRegistry.cpp:36-63 | the search loop replaces the one row of that name in place, keeping its reading only for the same shape, or appends |
| `ModbusRegistry.UpsertRegister` | src/ModbusRegistry.cpp:88-112 | the same for registers, comparing the whole layout |
| `ModbusRegistry.Drop` | src/ModbusRegistry.cpp:163-169 | the erase loop keeps exactly the points of other owners, in order |
| `ModbusRegistry.RegisteredRows` | src/ModbusRegistry.cpp:36-63 | registering keeps names unique and changes the row of that name only |
| `ModbusRegistry.KeptRows` | src/ModbusRegistry.cpp:163-173 | clearing an owner drops exactly the rows it owns |
| `ModbusRegistry.OwnersStep` | src/ModbusRegistry.cpp:36-173 | on ownership, each operation acts as the runtime model says |
| `ModbusRegistry.OwnedIff` | src/ModbusRegistry.cpp:36-173 | after any history a name is shown as an owner's if and only if that owner registered it last and has not been cleared since |
| `ModbusRegistry.UpdateBit` | src/ModbusRegistry.cpp:65-75 | a poll gives the row of that name its new reading and nothing else |
| `ModbusRegistry.UpdateRegisterReading` | src/ModbusRegistry.cpp:119-131 | the same for registers, with the error cleared |
| `ModbusRegistry.ReadingSinceShape` | src/ModbusRegistry.cpp:36-131 | in every history a row's reading is the last one given to it since the registration that gave it its present shape, or what that registration came with |
| `ModbusRegistry.ShownWithOwner` | src/ModbusRegistry.cpp:77-112 | on all three lists together, a registration takes over that point and none of the same name elsewhere |
| `ModbusRegistry.ShownWithoutOwner` | src/ModbusRegistry.cpp:163-173 | on all three lists together, clearing an owner drops exactly its points |
| `ModbusRegistry.Registry.RegisterInput` | src/ModbusRegistry.cpp:77-80 | one registration step on the inputs |
| `ModbusRegistry.Registry.RegisterOutput` | src/ModbusRegistry.cpp:82-86 | one registration step on the outputs, always as a coil |
| `ModbusRegistry.Registry.RegisterRegister` | src/ModbusRegistry.cpp:88-112 | one registration step on the registers |
| `ModbusRegistry.Registry.ClearOwner` | src/ModbusRegistry.cpp:163-173 | one clearing step on all three lists |
| `LuaRuntimeSafety.StepKeepsInv` | src/LuaRuntimeManager.cpp:237-476 | every step of every caller and thread keeps the invariant on records, reapers, table and points, overlapping starts included |
| `LuaRuntimeSafety.RunKeepsInv` | src/LuaRuntimeManager.cpp:237-476 | the invariant holds at every state of every run |
| `LuaRuntimeSafety.JoinedAtMostOnce` | src/LuaRuntimeManager.cpp:380-407 | in every run each thread is joined at most once, and one that is out of its record and not joined is held by a reaper |
| `LuaRuntimeSafety.TerminalMeansReturned` | src/LuaRuntimeManager.cpp:310-355 | in every run the terminal phase is visible only after the top-level code returned |
| `LuaRuntimeSafety.IdsNeverReused` | src/LuaRuntimeManager.cpp:274-276 | in every run an id once given out belongs to the same runtime for good, below every later id, and a thread taken out of its record stays out |
| `LuaRuntimeSafety.RestingRuntimeOwnsNothing` | src/LuaRuntimeManager.cpp:380-407 | a runtime that has come to rest owns no dashboard point |
| `LuaRuntimeSafety.LostIffOverwritten` | src/LuaRuntimeManager.cpp:253-292 | in every run an accounted thread becomes unaccounted exactly at an insert over its entry while it is still in its record and nobody is about to take it |
| `LuaRuntimeSafety.AccountedUnlessOverwritten` | src/LuaRuntimeManager.cpp:253-292 | a thread on which no insert lands in this way is accounted for at all times |
| `LuaRuntimeStarts.StepKeepsStarts` | src/LuaRuntimeManager.cpp:250-293 | every step taken while starts of one name do not overlap keeps the invariant on starts |
| `LuaRuntimeStarts.JoinSafety` | src/LuaRuntimeManager.cpp:250-293 | while starts of one name do not overlap no thread is lost: a runtime is out of the table only if its thread is joined, held by a reaper that will join it, or about to be taken by one |
| `LuaRuntimeStarts.OneLivePerName` | src/LuaRuntimeManager.cpp:250-293 | while starts of one name do not overlap at most one runtime of a name has code that has not returned |
| `LuaRuntimeStops.EngineUpIffEarly` | src/LuaRuntimeManager.cpp:392-406 | when a Reap that stopped the engine comes to release the runtime, the engine is up if and only if the code had not begun at the stop and has answered ok since |
| `LuaRuntimeStops.EngineStaysDown` | src/LuaRuntimeManager.cpp:392-406 | a runtime whose engine is down and whose code has returned keeps its engine down for good |
| `LuaRuntimeStops.StopAllOutcome` | src/LuaRuntimeManager.cpp:424-428 | from call to return, for each runtime of the snapshot: not terminal at its visit, its thread is from the return on out of the record or claimed by a reaper; terminal, StopAll never takes it, so it is still joinable unless another caller took it |
| `LuaRuntimeOutcomes.StartOutcome` | src/LuaRuntimeManager.cpp:237-293 | from call to return: Start looks the name up; an active runtime ends it at once, else the runtime found is reaped and a new one, with a new id, is created and listed |
| `LuaRuntimeOutcomes.RestartOutcome` | src/LuaRuntimeManager.cpp:430-455 | from call to return: the runtime found is reaped with an interrupt if it is active at the check, and then Restart starts as Start does |
| `LuaRuntimeOutcomes.RestartRefused` | src/LuaRuntimeManager.cpp:430-455 | Restart of a name that is not listed changes nothing |
| `LuaRuntimeOutcomes.StopOutcome` | src/LuaRuntimeManager.cpp:380-422 | from call to return: unless another reaper has the runtime at the claim, Stop returns with its thread joined, the phase terminal and the stop recorded; the thread is taken for good in any case |
| `LuaRuntimeOutcomes.StopRefused` | src/LuaRuntimeManager.cpp:409-422 | Stop of a name that is not listed or not active changes nothing |
| `LuaRuntimeOutcomes.PruneOutcome` | src/LuaRuntimeManager.cpp:457-476 | from call to return: exactly the entries of active runtimes stay and every other runtime found is reaped without an interrupt |
| `LuaRuntimeOutcomes.OnlyStopsInterrupt` | src/LuaRuntimeManager.cpp:380-476 | in every run a Reap interrupts if and only if Stop, Restart or StopAll began it |
| `LuaRuntimeOutcomes.PhaseTellsAlways` | src/LuaRuntimeManager.cpp:310-355 | in every run, until a reaper takes the thread, the phase is starting before the thread runs, active from then on and terminal after a failure |
| `LuaRuntimeFailures.OverlapLosesThread` | src/LuaRuntimeManager.cpp:253-292 | a run of two overlapping starts in which a live thread is left with nobody to join it |
| `LuaRuntimeFailures.StopAllLeavesFailedThread` | src/LuaRuntimeManager.cpp:424-428 | a run in which StopAll returns while a failed runtime's thread is still joinable |
| `LuaRuntimeFailures.EarlyStopLeavesEngineUp` | src/LuaRuntimeManager.cpp:380-407 | a run in which Stop returns with the phase terminal and the engine up |
| `MqOutbox.NothingLostOrRepeated` | src/MqClient.cpp:460-495 | in every interleaving accepted messages are those handed over, then at most one in flight, then the queue, in order |
| `MqOutbox.CountersAgree` | src/MqClient.cpp:483-493 | the published counter counts the messages handed over and the dropped counter the refused ones |
| `MqOutbox.Bounded` | src/MqClient.cpp:708-720 | queue and flight together hold at most the largest limit plus one |
| `MqOutbox.OverLimitOnlyByPushFront` | src/MqClient.cpp:483-490 | whenever the queue is over the limit, the last step that changed it was a failed publish putting its message back |
| `MqOutbox.LimitPlusOneIsReached` | src/MqClient.cpp:483-490 | for every limit some run with that limit reaches limit plus one |
| `MqOutbox.PassIsBounded` | src/MqClient.cpp:463-494 | one pass hands over at most 64 messages |
| `MqOutbox.PassGoesOn` | src/MqClient.cpp:463-494 | a pass hands over fewer than 64 only if the queue is empty or the connection has failed |
| `MqOutbox.FlushMeans` | src/MqClient.cpp:725-729 | when Flush answers true, all accepted messages are handed over if and only if no publish is under way |
| `MqOutbox.FlushTooEarly` | src/MqClient.cpp:725-729 | a run in which Flush answers true and the only message is back in the queue right after |
| `MqConsumer.StepKeepsInv` | src/MqClient.cpp:356-398 | every step of the client, the broker and the line keeps the consumer invariant |
| `MqConsumer.AtMostOneLive` | src/MqClient.cpp:356-398 | in every run a connection has at most one consumer alive, counting any still asked for |
| `MqConsumer.FlagsTellTheTruth` | src/MqClient.cpp:548-557 | with nothing under way the consuming flag and the tag are exactly the broker's consumer |
| `MqConsumer.PauseTakesEffect` | src/MqClient.cpp:548-557 | from every reachable healthy state, settling, one reconciliation pass and settling again leave a consumer if and only if not paused |
| `MqConsumer.DuplicateCancels` | src/MqClient.cpp:388-398 | a run in which one consumer is cancelled twice |
| `HttpHandoff.ExactlyOnePlace` | src/LuaEngine.cpp:3764-3887 | at every moment each accepted request is in exactly one of queue, handlers, abandoned and completed, once; others in none |
| `HttpHandoff.Conserved` | src/LuaEngine.cpp:3764-3887 | counted with multiplicity, accepted requests are those inside plus those completed |
| `HttpHandoff.AcceptedOnce` | src/LuaEngine.cpp:3764-3779 | a request is accepted at most once and only after its submission began |
| `HttpHandoff.FirstInFirstOut` | src/LuaEngine.cpp:3768-3797 | requests leave the queue in the order of acceptance and it never holds more than 64 |
| `HttpHandoff.RefusedIff` | src/LuaEngine.cpp:3768-3776 | a request past the running check is refused if and only if no route is registered or 64 are waiting |
| `HttpHandoff.ClosedMeansClosed` | src/LuaEngine.cpp:657-666 | from a close until a route is registered nothing is queued, handled or accepted |
| `HttpHandoff.CloseAnswersEverything` | src/LuaEngine.cpp:657-677 | when a close is over, every request ever accepted has been completed exactly once |
| `ConfigSchema.StripKeepsErrors` | src/DynamicConfigManager.cpp:73-81 | stripping secret defaults leaves the whole list of validation errors as it was, at every schema depth |
| `ConfigSchema.StripRemovesSecrets` | src/DynamicConfigManager.cpp:73-81 | no secret field at any depth of groups keeps a default |
| `ConfigSchema.StripKeepsCollected` | src/DynamicConfigManager.cpp:61-81 | collecting after stripping is stripping each collected field |
| `ConfigSchema.ValidMeaning` | src/DynamicConfigManager.cpp:110-168 | validation reports no error if and only if the value satisfies the schema, declaratively |
| `ConfigSchema.DefaultsArePuts` | src/DynamicConfigManager.cpp:83-108 | the recursive defaults are one pass over all collected fields, later over earlier |
| `ConfigSchema.DefaultsKnownIff` | src/DynamicConfigManager.cpp:83-131 | the defaults of a schema have no unknown key if and only if every field that contributes one, at any depth and by a default or as an array group, has a key of the first two levels |
| `ConfigSchema.UnreachableDefaultFails` | src/DynamicConfigManager.cpp:199-213 | any other schema fails its own validation |
| `ConfigErrors.ErrorsHave` | src/DynamicConfigManager.cpp:110-168 | for every schema, value and path, an error with a path and code is in the list if and only if the condition of that code fails at that path |
| `ConfigErrors.ReportedBelow` | src/DynamicConfigManager.cpp:134-160 | every error of a value has the value's path for a beginning |
| `ConfigErrors.DefaultFound` | src/DynamicConfigManager.cpp:87-103 | the last field that contributes to a key decides its default: the one given, or for an array group exactly max(0, min_items) items, each the defaults of its item schema |
| `ConfigErrors.DefaultItemCount` | src/DynamicConfigManager.cpp:92-143 | the defaults of such a field have an item count error if and only if max_items is given and below max(0, min_items) |
| `DynamicConfig.Manager.LoadProject` | src/DynamicConfigManager.cpp:185-197 | fills memory from the table for a project not yet known, and changes nothing else |
| `DynamicConfig.Manager.RegisterSchema` | src/DynamicConfigManager.cpp:199-222 | does what the registration function on states says, in every outcome |
| `DynamicConfig.Manager.Values` | src/DynamicConfigManager.cpp:238-244 | shows the stored values with the secret ones masked, and leaves memory as the source does, with the null schema a masked read inserts for a name that has values and no schema |
| `DynamicConfig.Manager.SetValues` | src/DynamicConfigManager.cpp:246-272 | does what the update function on states says, in every outcome |
| `DynamicConfig.FlatMeaning` | src/DynamicConfigManager.cpp:253-261 | the flat document has a dotted key if and only if some leaf has that path, with the value of the last such leaf in document order |
| `DynamicConfig.NestedIsDotted` | src/DynamicConfigManager.cpp:249-261 | a nested document has the same effect and answer as its dotted form in every state |
| `DynamicConfig.UpdateMeaning` | src/DynamicConfigManager.cpp:262-271 | a successful update, from any state, gives each key its incoming value, or leaves it where none came or a secret's mask came back; other projects stay |
| `DynamicConfig.MergedSameObject` | src/DynamicConfigManager.cpp:262-268 | whether an update changes the stored object does not depend on the order of its members |
| `ConfigMasking.UpdateUnchangedIff` | src/DynamicConfigManager.cpp:246-272 | an update succeeds and changes nothing if and only if each entry of the flat document is the mask of a secret or the stored value of its key |
| `ConfigMasking.MaskedAt` | src/DynamicConfigManager.cpp:238-244 | masking replaces exactly the values of secret keys, in place |
| `ConfigMasking.MaskedView` | src/DynamicConfigManager.cpp:68-71 | a masked read shows eight asterisks for every key with a password, a secret or a field marked secret, and every other value as stored |
| `ConfigMasking.MaskedRoundTrip` | src/DynamicConfigManager.cpp:238-272 | sending the masked document back, object values included, succeeds and changes nothing if and only if each entry it flattens into is the mask of a key taken for secret or the stored value |
| `ConfigMasking.MaskedRoundTripFlat` | src/DynamicConfigManager.cpp:238-272 | without object values: if and only if every key shown masked is taken for secret on the way back |
| `ConfigMasking.MaskedRoundTripUnique` | src/DynamicConfigManager.cpp:238-272 | with unique field keys and no object values it always does, secrets included |
| `ConfigMasking.MaskOverwritesSecret` | src/DynamicConfigManager.cpp:264-266 | with a password and a plain field of one key it does not |
| `ConfigMasking.ObjectValueRefused` | src/DynamicConfigManager.cpp:253-261 | a stored object with a member the schema does not know as a dotted key does not come back |
| `ConfigRuns.RegisterKeepsIff` | src/DynamicConfigManager.cpp:199-222 | registering keeps every project's values valid if and only if no kept entry lands on a known project whose schema it fails |
| `ConfigRuns.ReadKeepsIff` | src/DynamicConfigManager.cpp:238-244 | a read keeps every known project valid and saved if and only if it is not a masked read of a name with values and no schema |
| `ConfigRuns.EveryRunStaysValid` | src/DynamicConfigManager.cpp:185-272 | in every run of registrations, updates and reads whose kept keys are no known projects and whose masked reads name no project without schema, memory and database values satisfy their stored schemas and agree |
| `ConfigRuns.MaskedReadBreaks` | src/DynamicConfigManager.cpp:211-242 | a registration and a masked read after which a key is a known project, invalid and unsaved |
| `ConfigRuns.ReRegistrationKeepsIff` | src/DynamicConfigManager.cpp:205-220 | a successful registration stores the defaults with the kept entries over them, as meant, if and only if every kept entry is the default of its key |
| `ConfigRuns.StoredValueIsLost` | src/DynamicConfigManager.cpp:210-211 | a stored value is lost when its own schema is registered again |
| `ConfigRuns.SpillShown` | src/DynamicConfigManager.cpp:210-244 | after a registration, a masked read of a name that is no project shows the project's stored value of that key, unmasked, if the key is still a field, and else what it showed before |
| `ConfigRuns.SecretShownIff` | src/DynamicConfigManager.cpp:210-244 | a stored value not shown under its key before is shown there after a registration if and only if the schema still has the key |
| `ConfigRuns.SecretShown` | src/DynamicConfigManager.cpp:210-244 | a password readable under its own key as a project name |
| `LikeEscape.EscapeLike` | src/LogStore.cpp:99-109 | the loop escapes each wildcard and escape character |
| `LikeEscape.EscapedMatches` | src/LogStore.cpp:101-109 | an escaped keyword in a pattern matches itself up to case, and the rest of the pattern goes on behind it |
| `LikeEscape.LikeIsContains` | src/LogStore.cpp:499-511 | the pattern of a keyword matches exactly the texts that contain it up to ASCII case |
| `LikeEscape.SearchSelectsMentions` | src/LogStore.cpp:499-511 | a search without NUL selects exactly the entries that mention the keyword in some column |
| `LikeEscape.BoundLike` | src/LogStore.cpp:513-517 | bound as a C string, a keyword with a NUL matches exactly the texts that end with what precedes it |
| `LikeEscape.ExactIffNoNul` | src/LogStore.cpp:499-517 | the bound pattern means `contains` on all storable texts if and only if the keyword has no NUL |
| `LogStream.Logger.Log` | src/Logger.cpp:61-75 | an entry below the minimum level leaves no trace, any other gets the next number, and each ring is the newest of its category since the last Clear |
| `LogStream.Logger.Since` | src/Logger.cpp:109-127 | collecting, sorting and trimming give the newest of the retained entries above the number, straight from history |
| `LogStream.Logger.LatestSeq` | src/Logger.cpp:129-132 | the number of entries ever created |
| `LogStream.Logger.Clear` | src/Logger.cpp:134-140 | empties what can be seen and goes on numbering |
| `LogStream.RingHasRetained` | src/Logger.cpp:70-73 | a ring holds exactly the uncleared entries of its category with fewer than `capacity` later ones |
| `LogStream.SortedIsVisible` | src/Logger.cpp:109-121 | the rings collected and sorted by number are the retained entries in order of creation |
| `LogStream.SentInOrder` | src/WebServer.cpp:4423-4436 | over any run of logging, clearing and polling the numbers sent strictly increase and each line sent was logged after the start |
| `LogStream.SentIffWithinReach` | src/WebServer.cpp:4423-4436 | an entry is ever sent if and only if the first poll after it finds it not cleared, not evicted and among the newest |

## Left out

- Sockets, serial ports, threads' start-up, timeouts and fairness: waits may end at any time and only safety is stated.
- Error texts and log lines: outcomes are told apart, their wording is not modelled.
- ModbusRtuFrame.TwoFlipsAcceptedIff: that the register's period from 1 exceeds the 2047 bit positions two flips in a legal frame can be apart is a fact about one number, not worked out here.
- float32 and float64 registers, and JSON numbers that are not integers, in the register codec.
- The TCP slave and the socket half of the TCP client: the slave's header handling does not match its own client.
- The Lua machine: running a script is a step that answers ok or error at any time.
- LuaRuntimeOutcomes.RestartOutcome: a runtime that has neither a file nor a source is refused by the source before anything happens; in the model every listed runtime can be restarted.
- Starting a script: the check that a script file exists and the wait for the start decision, which change no shared state.
- MqConsumer.AtMostOneLive: a broker that has not noticed a lost connection yet may still count its consumer; consumers are counted per connection.
- MqClient inbox (OnDelivery, Get, Clear): a bounded list with easy properties.
- HTTP routing: which route serves a request and what status a handler answers; a request is handed to a handler or answered without one by the same steps.
- DynamicConfig.Manager.RegisterSchema: a kept key equal to the project's own id makes the source assign to the object it is iterating over; the model iterates over the object as it was.
- Json objects: the model lists members in the order they were stored, the source sorts them by key; storing never reorders what is there, so no result about a changed or unchanged object depends on it (DynamicConfig.MergedSameObject).
- Schema documents whose entries have unexpected JSON types, which make the source throw, and switching the database path.
- LikeEscape.LikeIsContains: texts are sequences of characters, so invalid UTF-8 and SQLite's limit on pattern length are not modelled.
- LogStream.Logger.Log: the ring capacity is fixed when the logger is made; numbers do not wrap at 2^64.
- SQLite itself, JSON parsing and printing, the AMQP library, the web server, system monitoring, card handling and the configuration file, which hold easier properties.
