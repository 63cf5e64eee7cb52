# kurubo Firmata client — a Dafny model

This project models the core of kurubo, a host-side client for the Firmata
protocol. A Firmata client drives a microcontroller board (an Arduino Uno, an
ESP8266) over a byte stream. It does three things:

- it encodes commands as Firmata frames;
- it parses the bytes the board sends back with a finite state machine;
- it keeps a live picture of the board's pins and its I2C ("two-wire")
  devices, filled in by a start-up handshake.

The model follows the source file by file.

- **Bit arithmetic** (`bitwise.dfy`, from `Bitwise.kt` and Kotlin `Int`
  semantics). `Int` is a 32-bit subset type. Overflow is written out as
  `Wrap`. `and`, `or`, `shl`, `shr`, `ushr` and `inv` are defined on the
  two's-complement bit pattern, and `/` truncates toward zero.
- **Protocol constants** (`firmata_protocol.dfy`, `pin_mode.dfy`). This
  covers the command bytes, `decode7Bit`, and the `PinMode` enum with
  `resolve`.
- **Board descriptors** (`boards.dfy`). The pin-role predicates and index
  maps of `ArduinoUno` and `ESP8266`.
- **Transport** (`transport.dfy`). A class that records every written value
  and every flush point, plus `sendValueAsTwo7bitBytes`.
- **Serial receive buffer** (`byte_queue.dfy`). `ByteBlockingQueue` is a
  class over a fixed array used as a ring, specified by its queued contents.
- **Command encoders** (`commands.dfy`). The exact values each
  `KuruboClient` command writes, as functions.
- **Parser** (`states.dfy`, `machine.dfy`):
  - `states.dfy` holds the thirteen parser states as one datatype, with each
    state's `process(b)` as a pure step function. A step moves to a state,
    publishes events, or throws.
  - `machine.dfy` holds the `FiniteStateMachine` class. Its methods update the
    current state, the published events and the scheduled handler
    deliveries. They are proved against `Run`, the fold of the step
    function over a byte sequence.
- **Parser properties** (`parser_facts.dfy`). Dispatch, sysex framing,
  capability numbering, analog mapping, base-128 value folding, and worked
  byte examples.
- **Encoder/parser round trips** (`round_trips.dfy`). What each encoder
  writes, fed to the parser, publishes.
- **Client** (`client.dfy`). `KuruboClient`, `FirmataPin` and
  `TwoWireDevice` are classes that refer to each other. Listener callbacks
  are recorded as notices in a log object.

The model reproduces several behaviours of the code that read as unintended.
Each is proved:

- **`twoWireDevice(address)`** guards with `ConcurrentHashMap.contains`, which
  searches the values, not the keys. Every call therefore replaces the device
  and re-sends the delay configuration (`Client.KuruboClient.TwoWireDeviceAt`).
- **`twoWireConfig`** writes its high group as `delay > 128`, so a delay of
  128 goes out as `00 00` (`Commands.DelayFrame`).
- **`analogWrite`** adds its third group only for `value > 0x4000`. The value
  0x4000 on an extended pin is read back as 0
  (`RoundTrips.AnalogWriteThresholdReadsZero`).
- **`decode7Bit`** keeps only bit 0 of the second byte, so the decoded value
  is always a single byte (`FirmataProtocol.Decode7BitDropsHighBits`).
- **The Uno's `isPinServo`** tests `pinToServoIndex(pin) < 0`, which no
  digital pin meets (`Boards.UnoHasNoServoPins`).
- **An empty sysex `F0 F7`** leaves the parser in a custom-message state
  rather than waiting (`ParserFacts.EmptySysexExample`). This happens because
  the dispatcher installs the new state after that state's own `process` has
  already moved the machine to waiting.

Exceptions are modelled as values:

- A `Status` result (`Done` or `Thrown(kind)`) is used for
  IllegalArgumentException, NullPointerException, UnsupportedPinModeException,
  InvalidPinWriteException and InterruptedException.
- An `Option` is used where `resolve` or an array allocation can throw inside
  the parser.
- A parser step that throws leaves the machine unchanged and stops
  `process(buffer, ...)`.

## Model

| member | source | states |
|---|---|---|
| `Bitwise.Wrap` | client/src/main/kotlin/br/tiagohm/kurubo/client/FirmataPin.kt:38 | an `Int` result is the exact value when it fits in 32 bits and otherwise agrees with it modulo 2^32 (two's-complement overflow, as in `portId * 8 + it`) |
| `Bitwise.Quot` | client/src/main/kotlin/br/tiagohm/kurubo/client/FirmataPin.kt:33-34 | Kotlin's `/` truncates toward zero: floor division for non-negative operands, the negated quotient of the magnitude otherwise |
| `Bitwise.BitAt` | client/src/main/kotlin/br/tiagohm/kurubo/client/Bitwise.kt:3-25 | `bitN` holds exactly when bit N of the 32-bit pattern is set, i.e. the floor quotient by 2^N is odd |
| `Bitwise.LoByte` | client/src/main/kotlin/br/tiagohm/kurubo/client/Bitwise.kt:27-28 | `loByte` is a byte and equals the value modulo 256 |
| `Bitwise.HiByte` | client/src/main/kotlin/br/tiagohm/kurubo/client/Bitwise.kt:30-31 | `hiByte` is a byte: bits 8-15 of the pattern, i.e. the floor quotient by 2^8 modulo 256 |
| `Bitwise.HigherByte` | client/src/main/kotlin/br/tiagohm/kurubo/client/Bitwise.kt:33-34 | `higherByte` is a byte: bits 16-23 of the pattern |
| `Bitwise.HighestByte` | client/src/main/kotlin/br/tiagohm/kurubo/client/Bitwise.kt:36-37 | `highestByte` is a byte: bits 24-31 of the pattern, so negative values give 0x80 or more |
| `Bitwise.BytesMakePattern` | client/src/main/kotlin/br/tiagohm/kurubo/client/Bitwise.kt:27-37 | the four byte accessors, weighted 1, 2^8, 2^16, 2^24, sum to the unsigned 32-bit pattern of the value |
| `Bitwise.BytesReassemble` | client/src/main/kotlin/br/tiagohm/kurubo/client/Bitwise.kt:27-37 | OR-ing the four bytes back into their positions gives back the original `Int`, negative values included |
| `Bitwise.ReassembleBytes` | client/src/main/kotlin/br/tiagohm/kurubo/client/Bitwise.kt:27-37 | any four bytes whose weighted sum is a value's pattern reassemble to that value |
| `Bitwise.OrFourBytes` | client/src/main/kotlin/br/tiagohm/kurubo/client/Bitwise.kt:27-37 | OR-ing four bytes into positions 0, 8, 16, 24 is their weighted sum, truncated to 32 bits |
| `Bitwise.Bit7IsHighLoByte` | client/src/main/kotlin/br/tiagohm/kurubo/client/Bitwise.kt:24-28 | `bit7` holds exactly when `loByte` is 0x80 or more |
| `Bitwise.UshrLowBit` | client/src/main/kotlin/br/tiagohm/kurubo/client/protocol/fsm/state/ParsingDigitalMessageState.kt:24-26 | `value ushr i and 0x01` is bit i of the 32-bit pattern |
| `Bitwise.AndHighNibble` | client/src/main/kotlin/br/tiagohm/kurubo/client/protocol/fsm/state/WaitingForMessageState.kt:16 | `b and 0xF0` on a byte clears its low nibble |
| `Bitwise.ShlOne` | client/src/main/kotlin/br/tiagohm/kurubo/client/FirmataPin.kt:45 | `1 shl k` is 2^k below 31 and the sign bit (-2^31) at 31; its pattern is 2^k |
| `Bitwise.InvShlOne` | client/src/main/kotlin/br/tiagohm/kurubo/client/FirmataPin.kt:50 | `(1 shl k).inv()` has every bit of the 32-bit pattern set except bit k |
| `Bitwise.OrShlOne` | client/src/main/kotlin/br/tiagohm/kurubo/client/FirmataPin.kt:47-48 | `x or (1 shl k)` on a byte sets bit k: unchanged if already set, else plus 2^k (wrapping to negative at k = 31) |
| `Bitwise.AndInvShlOne` | client/src/main/kotlin/br/tiagohm/kurubo/client/FirmataPin.kt:49-50 | `x and (1 shl k).inv()` on a byte clears bit k: minus 2^k if it was set, unchanged otherwise |
| `Bitwise.OrDisjoint` | client/src/main/kotlin/br/tiagohm/kurubo/client/protocol/fsm/state/ParsingDigitalMessageState.kt:21 | OR of a value below 2^k with a shifted value above it is their sum, and the shift is a multiplication |
| `FirmataProtocol.SignedByte` | client/src/main/kotlin/br/tiagohm/kurubo/client/protocol/fsm/FiniteStateMachine.kt:56 | `Byte.toInt()` is in -128..127 and agrees with the byte modulo 256 |
| `FirmataProtocol.Decode7Bit` | client/src/main/kotlin/br/tiagohm/kurubo/client/protocol/FirmataProtocol.kt:67-69 | the decoded value is always a single byte, 0..255 |
| `FirmataProtocol.Decode7BitIsBitExpression` | client/src/main/kotlin/br/tiagohm/kurubo/client/protocol/FirmataProtocol.kt:67-69 | the arithmetic decoding equals the source's mask-shift-or expression on sign-extended bytes |
| `FirmataProtocol.Decode7BitDropsHighBits` | client/src/main/kotlin/br/tiagohm/kurubo/client/protocol/FirmataProtocol.kt:67-69 | for two 7-bit groups the result is their 14-bit sum modulo 256: everything above bit 7 is lost |
| `FirmataProtocol.MaskSignedByte` | client/src/main/kotlin/br/tiagohm/kurubo/client/protocol/FirmataProtocol.kt:68 | masking a sign-extended byte with 0x01 or 0x7F sees only the byte's own low bits |
| `FirmataProtocol.OrHighBit` | client/src/main/kotlin/br/tiagohm/kurubo/client/protocol/FirmataProtocol.kt:68 | placing bit 0 of the second byte above seven low bits adds 0x80 times it |
| `FirmataProtocol.CommandsAreMarked` | client/src/main/kotlin/br/tiagohm/kurubo/client/protocol/FirmataProtocol.kt:5-41 | every message command byte has bit 7 set and every sysex sub-command has it clear |
| `FirmataProtocol.TwoWireModesDistinct` | client/src/main/kotlin/br/tiagohm/kurubo/client/protocol/FirmataProtocol.kt:59-62 | the four two-wire request modes are 0x00, 0x08, 0x10, 0x18 and pairwise distinct |
| `FirmataProtocol.SamplingBoundsOrdered` | client/src/main/kotlin/br/tiagohm/kurubo/client/protocol/FirmataProtocol.kt:64-65 | the minimum sampling interval does not exceed the maximum |
| `PinModes.Ordinal` | client/src/main/kotlin/br/tiagohm/kurubo/client/PinMode.kt:6-20 | `ordinal` is the entry's position in the enum |
| `PinModes.Resolve` | client/src/main/kotlin/br/tiagohm/kurubo/client/PinMode.kt:24-28 | `resolve` succeeds exactly for 0..13 and 0x7F; any other code indexes outside the enum and throws |
| `PinModes.ResolveCodes` | client/src/main/kotlin/br/tiagohm/kurubo/client/PinMode.kt:24-28 | 0x7F resolves to IGNORED, 13 to UNSUPPORTED, and each code 0..12 to the entry with that ordinal |
| `PinModes.ResolveOrdinal` | client/src/main/kotlin/br/tiagohm/kurubo/client/PinMode.kt:24-28 | resolving an entry's ordinal gives it back, except IGNORED, whose ordinal 13 resolves to UNSUPPORTED |
| `PinModes.ModeConstantsAreOrdinals` | client/src/main/kotlin/br/tiagohm/kurubo/client/protocol/FirmataProtocol.kt:44-57 | the `PIN_MODE_*` constants are the ordinals of INPUT..PULL_UP and `TOTAL_PIN_MODES` is one past UNSUPPORTED |
| `Boards.UnoPinRoles` | client/src/main/kotlin/br/tiagohm/kurubo/client/ArduinoUno.kt:8-32 | the Uno's LED, digital, analog, PWM, two-wire and SPI pins, each as a set of pin numbers (both directions) |
| `Boards.UnoAnalogIndices` | client/src/main/kotlin/br/tiagohm/kurubo/client/ArduinoUno.kt:28 | A0..A7 map to analog channels 0..7, below the board's analog pin count |
| `Boards.UnoHasNoServoPins` | client/src/main/kotlin/br/tiagohm/kurubo/client/ArduinoUno.kt:20 | `isPinServo` is false for every pin, because a digital pin's servo index `pin - D2` is never negative |
| `Boards.EspPinRoles` | client/src/main/kotlin/br/tiagohm/kurubo/client/ESP8266.kt:8-32 | the ESP8266's pin roles by GPIO number, servo pins included (both directions) |
| `Boards.EspAnalogIndex` | client/src/main/kotlin/br/tiagohm/kurubo/client/ESP8266.kt:28 | the single analog pin is channel 0 |
| `Transport.Lsb7` | transport/src/main/kotlin/br/tiagohm/kurubo/transport/Transport.kt:19 | the first byte is a 7-bit group equal to the value modulo 128 |
| `Transport.Msb7` | transport/src/main/kotlin/br/tiagohm/kurubo/transport/Transport.kt:20 | the second byte is bits 7..13 of the 32-bit pattern |
| `Transport.Two7bitBytesRecombine` | transport/src/main/kotlin/br/tiagohm/kurubo/transport/Transport.kt:18-21 | for a 14-bit value the two groups add back up to the value |
| `Transport.Decode7BitRoundTrip` | transport/src/main/kotlin/br/tiagohm/kurubo/transport/Transport.kt:18-21 | `decode7Bit` reads back every byte value sent with `sendValueAsTwo7bitBytes` |
| `Transport.Transport.Write` | transport/src/main/kotlin/br/tiagohm/kurubo/transport/Transport.kt:11 | one value is appended to what was written; flush points unchanged |
| `Transport.Transport.Flush` | transport/src/main/kotlin/br/tiagohm/kurubo/transport/Transport.kt:5 | a flush point is recorded at the current end of the written values |
| `Transport.Transport.SendValueAsTwo7bitBytes` | transport/src/main/kotlin/br/tiagohm/kurubo/transport/Transport.kt:18-21 | exactly the two 7-bit groups are written, low group first, without a flush |
| `ByteQueue.ByteBlockingQueue.constructor` | serial/src/main/kotlin/br/tiagohm/kurubo/serial/ByteBlockingQueue.kt:5-15 | the capacity must be at least one; the queue starts empty |
| `ByteQueue.ByteBlockingQueue.Offer` | serial/src/main/kotlin/br/tiagohm/kurubo/serial/ByteBlockingQueue.kt:20-37 | refused exactly when full; otherwise the byte joins the back and the ring invariant is kept |
| `ByteQueue.ByteBlockingQueue.Take` | serial/src/main/kotlin/br/tiagohm/kurubo/serial/ByteBlockingQueue.kt:39-54 | on a non-empty queue the front byte is returned and removed; the ring invariant is kept |
| `ByteQueue.FifoOrder` | serial/src/main/kotlin/br/tiagohm/kurubo/serial/ByteBlockingQueue.kt:20-54 | any bytes offered to a queue with room for them come back from `take` after those already queued, in the order they went in |
| `ByteQueue.NextSlot` | serial/src/main/kotlin/br/tiagohm/kurubo/serial/ByteBlockingQueue.kt:29 | `(i + 1) % size` is the next ring slot, wrapping to 0 after the last |
| `Commands.Wire` | transport/src/main/kotlin/br/tiagohm/kurubo/transport/Transport.kt:11 | `write(b)` puts one byte per value on the wire, equal to the value for 0..255 |
| `Commands.Nibble` | client/src/main/kotlin/br/tiagohm/kurubo/client/KuruboClient.kt:216 | `x and 0x0F` is the low nibble, 0..15, equal to x modulo 16 |
| `Commands.OrLowNibble` | client/src/main/kotlin/br/tiagohm/kurubo/client/KuruboClient.kt:216 | OR-ing 0..15 into a command byte with a clear low nibble adds it |
| `Commands.DigitalWrite` | client/src/main/kotlin/br/tiagohm/kurubo/client/KuruboClient.kt:215-219 | a DIGITAL_MESSAGE with the port in the low nibble, followed by the value's two 7-bit groups |
| `Commands.Group7` | client/src/main/kotlin/br/tiagohm/kurubo/client/KuruboClient.kt:190-200 | `value ushr k and 0x7F` is a 7-bit group: the pattern's floor quotient by 2^k modulo 128 |
| `Commands.AnalogWrite` | client/src/main/kotlin/br/tiagohm/kurubo/client/KuruboClient.kt:180-206 | pins up to 15 (negative ones included) get the 3-byte ANALOG_MESSAGE; others get an EXTENDED_ANALOG sysex of 6-9 bytes whose payload after the pin is all 7-bit |
| `Commands.Reports` | client/src/main/kotlin/br/tiagohm/kurubo/client/KuruboClient.kt:242-264 | the report loop writes two values per round |
| `Commands.ReportsContent` | client/src/main/kotlin/br/tiagohm/kurubo/client/KuruboClient.kt:242-264 | round k writes the command with k in its low nibble, then the enable flag |
| `Commands.ReportAt` | client/src/main/kotlin/br/tiagohm/kurubo/client/KuruboClient.kt:242-264 | round k's pair of values, which later rounds leave in place |
| `Commands.ClampInterval` | client/src/main/kotlin/br/tiagohm/kurubo/client/KuruboClient.kt:266-274 | the interval is clamped into [10, 100]: kept inside, raised to 10 below it, lowered to 100 above it |
| `Commands.SamplingInterval` | client/src/main/kotlin/br/tiagohm/kurubo/client/KuruboClient.kt:266-274 | a SAMPLING_INTERVAL sysex whose two 7-bit groups add back up to the clamped interval |
| `Commands.TwoWireConfig` | client/src/main/kotlin/br/tiagohm/kurubo/client/KuruboClient.kt:311-323 | accepted exactly for delays 0..255 (the `require`); then the delay frame |
| `Commands.DelayFrame` | client/src/main/kotlin/br/tiagohm/kurubo/client/KuruboClient.kt:311-323 | a TWO_WIRE_CONFIG sysex whose groups spell the delay, except 128, which goes out as 00 00 (the high group is written as `delay > 128`) |
| `Commands.AsciiByte` | client/src/main/kotlin/br/tiagohm/kurubo/client/KuruboClient.kt:297 | US-ASCII encoding keeps characters below 0x80 and replaces the rest by a 7-bit byte |
| `Commands.Ascii` | client/src/main/kotlin/br/tiagohm/kurubo/client/KuruboClient.kt:297 | one encoded byte per character, in order |
| `Commands.Pairs` | client/src/main/kotlin/br/tiagohm/kurubo/client/KuruboClient.kt:303-305 | each byte becomes its two 7-bit groups, in order; no value is a command byte |
| `Commands.TwoWireRead` | client/src/main/kotlin/br/tiagohm/kurubo/client/KuruboClient.kt:325-343 | 7 values without a register (REGISTER_NOT_SET), 9 with one; the address, the read or continuous-read mode, 7-bit payload and END_SYSEX |
| `States.Padded` | client/src/main/kotlin/br/tiagohm/kurubo/client/protocol/fsm/state/ParsingFirmwareMessageState.kt:11-13 | the backing array reads the written bytes and then zeros, at least as far as asked |
| `States.DispatchKey` | client/src/main/kotlin/br/tiagohm/kurubo/client/protocol/fsm/state/WaitingForMessageState.kt:16 | below 0xF0 the key is `b and 0xF0`; from 0xF0 up it is the byte itself |
| `States.LowNibble` | client/src/main/kotlin/br/tiagohm/kurubo/client/protocol/fsm/state/WaitingForMessageState.kt:19-20 | `b and 0x0F` is the port or channel, 0..15 |
| `States.PatternBit` | client/src/main/kotlin/br/tiagohm/kurubo/client/protocol/fsm/state/ParsingDigitalMessageState.kt:25 | `value ushr i and 0x01` is 0 or 1 |
| `States.DigitalEvents` | client/src/main/kotlin/br/tiagohm/kurubo/client/protocol/fsm/state/ParsingDigitalMessageState.kt:24-26 | a digital message publishes exactly eight pin events |
| `States.DecodeString` | client/src/main/kotlin/br/tiagohm/kurubo/client/protocol/fsm/state/ParsingStringMessageState.kt:22-24 | decoding succeeds exactly when the character count `length / 2` (truncated) is not negative |
| `States.TwoWireDecode` | client/src/main/kotlin/br/tiagohm/kurubo/client/protocol/fsm/state/ParsingTwoWireMessageState.kt:19-24 | decoding succeeds exactly when `(count - 4) / 2` is not negative, and then carries that many data values |
| `Events.ClassOf` | client/src/main/kotlin/br/tiagohm/kurubo/client/protocol/fsm/FiniteStateMachine.kt:34 | an event's class is never the catch-all `Any` class |
| `Machine.Deliveries` | client/src/main/kotlin/br/tiagohm/kurubo/client/protocol/fsm/FiniteStateMachine.kt:33-44 | `handle` schedules the exact-class chain (if registered) and then the catch-all chain (if registered), each with the event itself |
| `Machine.MissingHandlerStillReachesCatchAll` | client/src/main/kotlin/br/tiagohm/kurubo/client/protocol/fsm/FiniteStateMachine.kt:36-43 | an event with no handler of its own still reaches the catch-all handler, and only it |
| `Machine.DeliverAllAppend` | client/src/main/kotlin/br/tiagohm/kurubo/client/protocol/fsm/FiniteStateMachine.kt:33-44 | delivering two runs of events one after the other is delivering their concatenation |
| `Machine.ResumeAppend` | client/src/main/kotlin/br/tiagohm/kurubo/client/protocol/fsm/FiniteStateMachine.kt:54-58 | feeding two chunks one after the other is the same as feeding their concatenation |
| `Machine.ResumeStopped` | client/src/main/kotlin/br/tiagohm/kurubo/client/protocol/fsm/FiniteStateMachine.kt:54-58 | once a `process` call has thrown, later bytes change nothing |
| `Machine.ResumeExtends` | client/src/main/kotlin/br/tiagohm/kurubo/client/protocol/fsm/state/AbstractState.kt:23-25 | published events are never retracted: a run's events extend those it started with |
| `Machine.RunWithoutState` | client/src/main/kotlin/br/tiagohm/kurubo/client/protocol/fsm/FiniteStateMachine.kt:46-52 | with no current state every byte only publishes the terminal-state event and the state stays absent |
| `Machine.StoppedRun` | client/src/main/kotlin/br/tiagohm/kurubo/client/protocol/fsm/FiniteStateMachine.kt:54-58 | after a byte has thrown, the rest of the buffer is not processed |
| `Machine.Visited` | client/src/main/kotlin/br/tiagohm/kurubo/client/protocol/fsm/FiniteStateMachine.kt:54-58 | the loop reads no more bytes than the buffer holds |
| `Machine.VisitedWindow` | client/src/main/kotlin/br/tiagohm/kurubo/client/protocol/fsm/FiniteStateMachine.kt:54-58 | an in-bounds `offset`/`length` window is read exactly, in order, and never indexes outside the array |
| `Machine.UnmaskedByte` | client/src/main/kotlin/br/tiagohm/kurubo/client/protocol/fsm/FiniteStateMachine.kt:56 | `buffer[i].toInt() and 0xFF` is the unsigned byte value |
| `Machine.DigitalEventAt` | client/src/main/kotlin/br/tiagohm/kurubo/client/protocol/fsm/state/ParsingDigitalMessageState.kt:22-25 | event i of a digital message is pin `portId * 8 + i` (with `Int` overflow) with bit i of the value |
| `Machine.ModesBelowStaysNone` | client/src/main/kotlin/br/tiagohm/kurubo/client/protocol/fsm/state/ParsingCapabilityResponseState.kt:24-28 | once an unresolvable mode byte has been met, the mode loop fails however far it goes |
| `Machine.FoldGroups` | client/src/main/kotlin/br/tiagohm/kurubo/client/protocol/fsm/state/PinStateParsingState.kt:12-16 | the value loop computes the OR-fold of the shifted bytes (its specification function `OrFold`) |
| `Machine.CollectModes` | client/src/main/kotlin/br/tiagohm/kurubo/client/protocol/fsm/state/ParsingCapabilityResponseState.kt:21-28 | the mode loop yields the modes at even offsets, or fails at the first byte `resolve` rejects |
| `Machine.FiniteStateMachine.constructor` | client/src/main/kotlin/br/tiagohm/kurubo/client/protocol/fsm/FiniteStateMachine.kt:16-18 | the machine starts in its initial state with no handlers, nothing published and nothing scheduled |
| `Machine.FiniteStateMachine.TransitTo` | client/src/main/kotlin/br/tiagohm/kurubo/client/protocol/fsm/FiniteStateMachine.kt:20-31 | only the current state changes |
| `Machine.FiniteStateMachine.Handle` | client/src/main/kotlin/br/tiagohm/kurubo/client/protocol/fsm/FiniteStateMachine.kt:33-44 | the event is published once and its deliveries are scheduled; state and handlers are unchanged |
| `Machine.FiniteStateMachine.AddHandler` | client/src/main/kotlin/br/tiagohm/kurubo/client/protocol/fsm/FiniteStateMachine.kt:61-67 | a handler for a new class is registered alone; a second one for a class runs after the earlier ones |
| `Machine.FiniteStateMachine.PublishThenTransit` | client/src/main/kotlin/br/tiagohm/kurubo/client/protocol/fsm/state/AbstractState.kt:11-25 | one event is published and then the next state installed |
| `Machine.FiniteStateMachine.ProcessWaiting` | client/src/main/kotlin/br/tiagohm/kurubo/client/protocol/fsm/state/WaitingForMessageState.kt:14-27 | the machine takes the waiting state's step (see `ParserFacts.WaitingDispatch`) |
| `Machine.FiniteStateMachine.ProcessSysex` | client/src/main/kotlin/br/tiagohm/kurubo/client/protocol/fsm/state/ParsingSysexMessageState.kt:14-24 | the machine takes the sysex dispatcher's step, including the custom state installed after its own `process` ran |
| `Machine.FiniteStateMachine.ProcessDigital` | client/src/main/kotlin/br/tiagohm/kurubo/client/protocol/fsm/state/ParsingDigitalMessageState.kt:14-31 | first byte stored; second byte combined, eight pin events published, then waiting |
| `Machine.FiniteStateMachine.PublishPins` | client/src/main/kotlin/br/tiagohm/kurubo/client/protocol/fsm/state/ParsingDigitalMessageState.kt:24-26 | exactly the eight events of `DigitalEvents` are published, in pin order, with their deliveries |
| `Machine.FiniteStateMachine.ProcessAnalog` | client/src/main/kotlin/br/tiagohm/kurubo/client/protocol/fsm/state/WaitingForMessageState.kt:20 | the analog message state, shaped like the digital one, publishes one value for its channel |
| `Machine.FiniteStateMachine.ProcessVersion` | client/src/main/kotlin/br/tiagohm/kurubo/client/protocol/fsm/state/ParsingVersionMessageState.kt:11-19 | first byte stored as major; the second publishes the version and returns to waiting |
| `Machine.FiniteStateMachine.ProcessCapability` | client/src/main/kotlin/br/tiagohm/kurubo/client/protocol/fsm/state/ParsingCapabilityResponseState.kt:14-37 | END_SYSEX ends the list; 0x7F publishes the pin's modes and moves to the next pin, or throws on an unresolvable mode; other bytes are buffered |
| `Machine.FiniteStateMachine.ProcessAnalogMapping` | client/src/main/kotlin/br/tiagohm/kurubo/client/protocol/fsm/state/ParsingAnalogMappingState.kt:14-24 | each byte but 0x7F maps a channel to the current index; every byte advances the index; END_SYSEX publishes the mapping |
| `Machine.FiniteStateMachine.ProcessPinState` | client/src/main/kotlin/br/tiagohm/kurubo/client/protocol/fsm/state/PinStateParsingState.kt:10-23 | END_SYSEX publishes pin, resolved mode and value (throwing on an unresolvable mode), then waiting; other bytes are buffered |
| `Machine.FiniteStateMachine.ProcessExtendedAnalog` | client/src/main/kotlin/br/tiagohm/kurubo/client/protocol/fsm/state/ParsingExtendedAnalogMessageState.kt:9-23 | END_SYSEX publishes the channel byte and the value folded from the groups, then waiting; other bytes are buffered |
| `Machine.FiniteStateMachine.ProcessString` | client/src/main/kotlin/br/tiagohm/kurubo/client/protocol/fsm/state/ParsingStringMessageState.kt:10-18 | END_SYSEX publishes the decoded string, then waiting; other bytes are buffered |
| `Machine.FiniteStateMachine.ProcessFirmware` | client/src/main/kotlin/br/tiagohm/kurubo/client/protocol/fsm/state/ParsingFirmwareMessageState.kt:9-19 | END_SYSEX publishes major, minor and the decoded name (throwing for a negative length), then waiting |
| `Machine.FiniteStateMachine.ProcessTwoWire` | client/src/main/kotlin/br/tiagohm/kurubo/client/protocol/fsm/state/ParsingTwoWireMessageState.kt:10-17 | END_SYSEX publishes the decoded reply (throwing for a negative data count), then waiting |
| `Machine.FiniteStateMachine.ProcessCustom` | client/src/main/kotlin/br/tiagohm/kurubo/client/protocol/fsm/state/ParsingCustomSysexMessageState.kt:9-16 | END_SYSEX publishes the buffered bytes, then waiting; other bytes are buffered |
| `Machine.FiniteStateMachine.ProcessState` | client/src/main/kotlin/br/tiagohm/kurubo/client/protocol/fsm/FiniteStateMachine.kt:50 | the current state's `process` is run; `ok` is false exactly when it throws |
| `Machine.FiniteStateMachine.Process` | client/src/main/kotlin/br/tiagohm/kurubo/client/protocol/fsm/FiniteStateMachine.kt:46-52 | one byte continues the run: the new state, published events and deliveries are those of one more step; handlers unchanged |
| `Machine.FiniteStateMachine.ProcessBuffer` | client/src/main/kotlin/br/tiagohm/kurubo/client/protocol/fsm/FiniteStateMachine.kt:54-58 | the machine ends where feeding the visited bytes leads, having published exactly that run's events; it fails when a byte throws or the window overruns the array |
| `Machine.FiniteStateMachine.ProcessRange` | client/src/main/kotlin/br/tiagohm/kurubo/client/protocol/fsm/FiniteStateMachine.kt:55-57 | processing an in-bounds slice byte by byte equals the run over that slice |
| `ParserFacts.WaitingDispatch` | client/src/main/kotlin/br/tiagohm/kurubo/client/protocol/fsm/state/WaitingForMessageState.kt:14-27 | 0x90-0x9F and 0xE0-0xEF open a digital or analog message for port `b - 0x90` / `b - 0xE0`; 0xF9 the version; 0xF0 a sysex; 0xFF publishes a reset; every other byte, data bytes included, publishes an error under its dispatch key |
| `ParserFacts.HighNibbleKey` | client/src/main/kotlin/br/tiagohm/kurubo/client/protocol/fsm/state/WaitingForMessageState.kt:16-20 | below 0xF0 the key names DIGITAL_MESSAGE or ANALOG_MESSAGE exactly on that command's sixteen bytes, and never the version, sysex or reset commands |
| `ParserFacts.SysexTargets` | client/src/main/kotlin/br/tiagohm/kurubo/client/protocol/fsm/state/ParsingSysexMessageState.kt:28-36 | exactly seven sub-commands select a state of their own, each starting empty |
| `ParserFacts.SysexFallback` | client/src/main/kotlin/br/tiagohm/kurubo/client/protocol/fsm/state/ParsingSysexMessageState.kt:17-20 | any other sub-command opens a custom message already holding it; END_SYSEX publishes an empty custom message |
| `ParserFacts.EndSysexReturnsToWaiting` | client/src/main/kotlin/br/tiagohm/kurubo/client/protocol/fsm/state/AbstractState.kt:11-25 | END_SYSEX ends every buffering state with exactly one event and a return to waiting, unless its decoding throws; only pin-state, firmware and two-wire decoding can, and a string message never does |
| `ParserFacts.PayloadBytesPublishNothing` | client/src/main/kotlin/br/tiagohm/kurubo/client/protocol/fsm/state/ParsingCustomSysexMessageState.kt:13-15 | before END_SYSEX a buffering state publishes nothing and stays a buffering state (a capability section's 0x7F aside); the custom and capability states append the byte, the analog-mapping state maps it (unless 0x7F) to the next pin number |
| `ParserFacts.RunSnoc` | client/src/main/kotlin/br/tiagohm/kurubo/client/protocol/fsm/FiniteStateMachine.kt:54-58 | one more byte continues a run by exactly one step |
| `ParserFacts.PortZeroPatternOne` | client/src/main/kotlin/br/tiagohm/kurubo/client/protocol/fsm/state/ParsingDigitalMessageState.kt:24-26 | port 0 with value 1: pin 0 reads 1, pins 1-7 read 0 |
| `ParserFacts.DigitalFrameExample` | client/src/main/kotlin/br/tiagohm/kurubo/client/protocol/fsm/state/ParsingDigitalMessageState.kt:14-31 | the bytes 90 01 00 publish pin 0 = 1 and pins 1-7 = 0, and the parser is waiting again |
| `ParserFacts.CapabilityFrameExample` | client/src/main/kotlin/br/tiagohm/kurubo/client/protocol/fsm/state/ParsingCapabilityResponseState.kt:14-37 | the bytes F0 6C 00 01 7F F7 publish pin 0 supporting INPUT, then the end of the list, and the parser is waiting again |
| `ParserFacts.CapabilityFrameOpen` | client/src/main/kotlin/br/tiagohm/kurubo/client/protocol/fsm/state/ParsingSysexMessageState.kt:14-36 | F0 6C opens a capability response at pin 0 |
| `ParserFacts.CapabilityFrameClose` | client/src/main/kotlin/br/tiagohm/kurubo/client/protocol/fsm/state/ParsingCapabilityResponseState.kt:16-31 | after the section 00 01, the bytes 7F F7 publish pin 0's INPUT response and the end of the list |
| `ParserFacts.InputOnlySection` | client/src/main/kotlin/br/tiagohm/kurubo/client/protocol/fsm/state/ParsingCapabilityResponseState.kt:21-28 | the section 00 01 lists INPUT alone |
| `ParserFacts.EmptySysexExample` | client/src/main/kotlin/br/tiagohm/kurubo/client/protocol/fsm/state/ParsingSysexMessageState.kt:17-20 | F0 F7 publishes an empty custom message and leaves the parser in the custom state, not waiting |
| `ParserFacts.CapabilitySections` | client/src/main/kotlin/br/tiagohm/kurubo/client/protocol/fsm/state/ParsingCapabilityResponseState.kt:14-37 | bytes without END_SYSEX number the sections consecutively: one response per 0x7F, each for the next pin, ending at the pin after the last |
| `ParserFacts.SectionsContinue` | client/src/main/kotlin/br/tiagohm/kurubo/client/protocol/fsm/state/ParsingCapabilityResponseState.kt:20-35 | one more capability byte keeps the numbering, adding a section exactly on 0x7F |
| `ParserFacts.AnalogMappingRun` | client/src/main/kotlin/br/tiagohm/kurubo/client/protocol/fsm/state/ParsingAnalogMappingState.kt:14-24 | payload bytes publish nothing, advance the index once each and map every channel to the last index that named it |
| `ParserFacts.MapsExtend` | client/src/main/kotlin/br/tiagohm/kurubo/client/protocol/fsm/state/ParsingAnalogMappingState.kt:18-23 | one more byte other than 0x7F maps its channel to the new index, overwriting an earlier entry |
| `ParserFacts.OrFoldIsSum` | client/src/main/kotlin/br/tiagohm/kurubo/client/protocol/fsm/state/PinStateParsingState.kt:12-16 | while every group is below 0x80 and four groups fit, OR-ing the shifted groups adds them: the value is their base-128 number |
| `ParserFacts.AddGroup` | client/src/main/kotlin/br/tiagohm/kurubo/client/protocol/fsm/state/ParsingExtendedAnalogMessageState.kt:15 | OR-ing a 7-bit group above the groups collected so far adds it at its place value |
| `ParserFacts.SmallShift` | client/src/main/kotlin/br/tiagohm/kurubo/client/protocol/fsm/state/ParsingExtendedAnalogMessageState.kt:15 | the shift distances 0, 7, 14, 21 stay below 32, so the JVM's masking of the distance does not matter |
| `ParserFacts.PinStateValueIsBase128` | client/src/main/kotlin/br/tiagohm/kurubo/client/protocol/fsm/state/PinStateParsingState.kt:12-16 | a pin-state reply with 7-bit value bytes reports their base-128 value |
| `ParserFacts.ExtendedAnalogValueIsBase128` | client/src/main/kotlin/br/tiagohm/kurubo/client/protocol/fsm/state/ParsingExtendedAnalogMessageState.kt:11-16 | an extended analog message with 7-bit groups reports their base-128 value |
| `ParserFacts.DecodedStringBytes` | client/src/main/kotlin/br/tiagohm/kurubo/client/protocol/fsm/state/ParsingStringMessageState.kt:22-24 | a non-negative length decodes to `length / 2` characters, each a single byte |
| `ParserFacts.TwoWireReplyBytes` | client/src/main/kotlin/br/tiagohm/kurubo/client/protocol/fsm/state/ParsingTwoWireMessageState.kt:19-24 | address, register and data of a decoded reply are bytes, so the register is never REGISTER_NOT_SET |
| `ParserFacts.VersionBytesUnmasked` | client/src/main/kotlin/br/tiagohm/kurubo/client/protocol/fsm/state/ParsingVersionMessageState.kt:11-19 | neither byte of a version report is checked or masked |
| `RoundTrips.AppendRun` | client/src/main/kotlin/br/tiagohm/kurubo/client/protocol/fsm/state/ParsingCustomSysexMessageState.kt:9-16 | a payload without END_SYSEX lands byte for byte in the buffer of an appending state, publishing nothing |
| `RoundTrips.SysexFrame` | client/src/main/kotlin/br/tiagohm/kurubo/client/protocol/fsm/state/ParsingSysexMessageState.kt:14-36 | a frame F0 cmd payload F7 reaches END_SYSEX in cmd's state holding exactly the payload |
| `RoundTrips.WireAppend` | transport/src/main/kotlin/br/tiagohm/kurubo/transport/Transport.kt:11 | bytes go on the wire one write at a time |
| `RoundTrips.SecondGroupRecombines` | client/src/main/kotlin/br/tiagohm/kurubo/client/protocol/fsm/state/ParsingDigitalMessageState.kt:21 | `value or (b shl 7)` puts a 14-bit value's two groups back together |
| `RoundTrips.DigitalMessageRun` | client/src/main/kotlin/br/tiagohm/kurubo/client/protocol/fsm/state/ParsingDigitalMessageState.kt:14-31 | a digital message for a port publishes the eight events of the recombined value, then waits |
| `RoundTrips.AnalogMessageRun` | client/src/main/kotlin/br/tiagohm/kurubo/client/protocol/fsm/state/WaitingForMessageState.kt:20 | a short analog message for a channel publishes one event with the recombined value, then waits |
| `RoundTrips.DigitalWriteRoundTrip` | client/src/main/kotlin/br/tiagohm/kurubo/client/KuruboClient.kt:215-219 | `digitalWrite` of a port 0..15 and a 14-bit value parses back to the eight pin events of that port and value |
| `RoundTrips.AnalogWriteShortRoundTrip` | client/src/main/kotlin/br/tiagohm/kurubo/client/KuruboClient.kt:180-183 | `analogWrite` on pins 0..15 with a 14-bit value parses back to one analog event for that pin and value |
| `RoundTrips.ValueGroupsSum` | client/src/main/kotlin/br/tiagohm/kurubo/client/KuruboClient.kt:188-200 | the groups the threshold tests send are 7-bit and add back up to the value (the thresholds themselves excepted) |
| `RoundTrips.SentDigitsSum` | client/src/main/kotlin/br/tiagohm/kurubo/client/KuruboClient.kt:188-200 | the base-128 digits kept by the `> 0x4000` and `> 0x200000` tests sum to the value |
| `RoundTrips.ExtendedFrame` | client/src/main/kotlin/br/tiagohm/kurubo/client/protocol/fsm/state/ParsingExtendedAnalogMessageState.kt:9-23 | an EXTENDED_ANALOG frame publishes one analog event for its channel byte and folded value, then waits |
| `RoundTrips.ExtendedWire` | client/src/main/kotlin/br/tiagohm/kurubo/client/KuruboClient.kt:184-202 | the wire bytes of `analogWrite` for a pin above 15 |
| `RoundTrips.AnalogWriteExtendedRoundTrip` | client/src/main/kotlin/br/tiagohm/kurubo/client/KuruboClient.kt:180-206 | `analogWrite` on pins 16..127 parses back to the pin and value, for every value below 2^28 except 0x4000 and 0x200000 |
| `RoundTrips.ThresholdGroups` | client/src/main/kotlin/br/tiagohm/kurubo/client/KuruboClient.kt:190 | at 0x4000 both groups are 0 and no third group is sent |
| `RoundTrips.AnalogWriteThresholdReadsZero` | client/src/main/kotlin/br/tiagohm/kurubo/client/KuruboClient.kt:190-192 | `analogWrite(pin, 0x4000)` on a pin above 15 parses back as value 0 (the test is `>`, not `>=`) |
| `RoundTrips.ZeroGroupsFrame` | client/src/main/kotlin/br/tiagohm/kurubo/client/protocol/fsm/state/ParsingExtendedAnalogMessageState.kt:9-23 | a channel followed by two zero groups reads as value 0 on that channel |
| `RoundTrips.AsciiPairDecodes` | client/src/main/kotlin/br/tiagohm/kurubo/client/protocol/FirmataProtocol.kt:67-69 | `decode7Bit` reads an ASCII character back from the pair `text` wrote for it |
| `RoundTrips.StringFrame` | client/src/main/kotlin/br/tiagohm/kurubo/client/protocol/fsm/state/ParsingStringMessageState.kt:10-18 | a STRING_DATA frame whose payload decodes publishes one string event, then waits |
| `RoundTrips.AsciiPairsDecode` | client/src/main/kotlin/br/tiagohm/kurubo/client/protocol/fsm/state/ParsingStringMessageState.kt:22-24 | the pairs `text` writes for an ASCII message contain no END_SYSEX and decode to the message |
| `RoundTrips.AsciiPairAt` | client/src/main/kotlin/br/tiagohm/kurubo/client/protocol/fsm/state/ParsingStringMessageState.kt:23 | character k of an ASCII message is decoded from the k-th pair of its payload |
| `RoundTrips.PairsNoTerminator` | client/src/main/kotlin/br/tiagohm/kurubo/client/KuruboClient.kt:303-305 | the pairs of an ASCII message are below 0x80, so none ends the frame |
| `RoundTrips.TextRoundTrip` | client/src/main/kotlin/br/tiagohm/kurubo/client/KuruboClient.kt:293-309 | `text(message)` for an ASCII message parses back to a string event with the same message |
| `Client.ShiftOf` | client/src/main/kotlin/br/tiagohm/kurubo/client/FirmataPin.kt:34-45 | the shift distance `index % 8` is in 0..31 and, for a non-negative index, is the pin's place in its port |
| `Client.PortSumBit` | client/src/main/kotlin/br/tiagohm/kurubo/client/FirmataPin.kt:37-43 | bit k of the port byte is whether pin k of the port is on |
| `Client.PortSumUpdate` | client/src/main/kotlin/br/tiagohm/kurubo/client/FirmataPin.kt:45-51 | changing one pin's state changes the port byte by exactly that pin's power of two |
| `Client.PortStep` | client/src/main/kotlin/br/tiagohm/kurubo/client/FirmataPin.kt:40-42 | `portValue or (1 shl it)` adds the next pin when it is on; an off pin adds nothing |
| `Client.PortLits` | client/src/main/kotlin/br/tiagohm/kurubo/client/FirmataPin.kt:37-43 | entry i is whether pin `portId * 8 + i` is OUTPUT with a positive value |
| `Client.PortByteBits` | client/src/main/kotlin/br/tiagohm/kurubo/client/FirmataPin.kt:45-51 | for a non-negative index, the port byte is a byte whose bit i is the written pin's new state at its own place and pin i's state elsewhere |
| `Client.ForcedBit` | client/src/main/kotlin/br/tiagohm/kurubo/client/FirmataPin.kt:45-51 | `portValue or bit` / `portValue and bit.inv()` computes that byte (for every shift distance 0..31) |
| `Client.KuruboClient.constructor` | client/src/main/kotlin/br/tiagohm/kurubo/client/KuruboClient.kt:24-40 | a new client: no listeners, empty queue, not started or ready, no pins, mapping, devices or delay |
| `Client.KuruboClient.AnalogMapping` | client/src/main/kotlin/br/tiagohm/kurubo/client/KuruboClient.kt:173-178 | exactly the ANALOG_MAPPING_QUERY frame is written, then one flush |
| `Client.KuruboClient.AnalogWrite` | client/src/main/kotlin/br/tiagohm/kurubo/client/KuruboClient.kt:180-206 | exactly the `Commands.AnalogWrite` frame is written, then one flush |
| `Client.KuruboClient.Capability` | client/src/main/kotlin/br/tiagohm/kurubo/client/KuruboClient.kt:208-213 | exactly the CAPABILITY_QUERY frame is written, then one flush |
| `Client.KuruboClient.DigitalWrite` | client/src/main/kotlin/br/tiagohm/kurubo/client/KuruboClient.kt:215-219 | exactly the DIGITAL_MESSAGE frame is written, then one flush |
| `Client.KuruboClient.RequestFirmware` | client/src/main/kotlin/br/tiagohm/kurubo/client/KuruboClient.kt:221-226 | exactly the REPORT_FIRMWARE query is written, then one flush |
| `Client.KuruboClient.PinState` | client/src/main/kotlin/br/tiagohm/kurubo/client/KuruboClient.kt:228-234 | exactly the PIN_STATE_QUERY frame for the pin is written, then one flush |
| `Client.KuruboClient.AnalogPinReport` | client/src/main/kotlin/br/tiagohm/kurubo/client/KuruboClient.kt:236-240 | REPORT_ANALOG with the board's analog index, the flag, then one flush |
| `Client.KuruboClient.ReportAll` | client/src/main/kotlin/br/tiagohm/kurubo/client/KuruboClient.kt:242-249 | the sixteen report rounds are written in order, then one flush |
| `Client.KuruboClient.AnalogReport` | client/src/main/kotlin/br/tiagohm/kurubo/client/KuruboClient.kt:242-249 | all sixteen analog channels are reported on or off, then one flush |
| `Client.KuruboClient.DigitalPinReport` | client/src/main/kotlin/br/tiagohm/kurubo/client/KuruboClient.kt:251-255 | REPORT_DIGITAL with the board's digital index, the flag, then one flush |
| `Client.KuruboClient.DigitalReport` | client/src/main/kotlin/br/tiagohm/kurubo/client/KuruboClient.kt:257-264 | all sixteen digital ports are reported on or off, then one flush |
| `Client.KuruboClient.SamplingInterval` | client/src/main/kotlin/br/tiagohm/kurubo/client/KuruboClient.kt:266-274 | the clamped SAMPLING_INTERVAL frame, then one flush |
| `Client.KuruboClient.ServoConfig` | client/src/main/kotlin/br/tiagohm/kurubo/client/KuruboClient.kt:276-284 | the SERVO_CONFIG frame with both pulse widths as 7-bit pairs, then one flush |
| `Client.KuruboClient.Mode` | client/src/main/kotlin/br/tiagohm/kurubo/client/KuruboClient.kt:286-291 | SET_PIN_MODE, the pin and the mode's ordinal, then one flush |
| `Client.KuruboClient.SendPairs` | client/src/main/kotlin/br/tiagohm/kurubo/client/KuruboClient.kt:303-305 | each payload byte as its two 7-bit groups, in order, with no flush |
| `Client.KuruboClient.Text` | client/src/main/kotlin/br/tiagohm/kurubo/client/KuruboClient.kt:293-309 | the STRING_DATA frame of the message's ASCII pairs, then one flush |
| `Client.KuruboClient.TwoWireConfig` | client/src/main/kotlin/br/tiagohm/kurubo/client/KuruboClient.kt:311-323 | a delay outside 0..255 throws IllegalArgument before anything is written; otherwise the delay frame and one flush |
| `Client.KuruboClient.TwoWireRead` | client/src/main/kotlin/br/tiagohm/kurubo/client/KuruboClient.kt:325-343 | the TWO_WIRE_REQUEST read frame (register pair only when set), then one flush |
| `Client.KuruboClient.TwoWireStopContinuous` | client/src/main/kotlin/br/tiagohm/kurubo/client/KuruboClient.kt:345-352 | the stop-continuous frame, then one flush |
| `Client.KuruboClient.TwoWireWrite` | client/src/main/kotlin/br/tiagohm/kurubo/client/KuruboClient.kt:354-369 | the write frame, flushed after its 4-value header and again at its end |
| `Client.KuruboClient.Run` | client/src/main/kotlin/br/tiagohm/kurubo/client/KuruboClient.kt:48-59 | only the first call sends the firmware query; later calls write nothing |
| `Client.KuruboClient.EnsureInitializationIsDone` | client/src/main/kotlin/br/tiagohm/kurubo/client/KuruboClient.kt:72-94 | starts the client if needed; succeeds exactly when it is ready, otherwise fails with InterruptedException |
| `Client.KuruboClient.AddListener` | client/src/main/kotlin/br/tiagohm/kurubo/client/KuruboClient.kt:61-63 | the listener joins the set |
| `Client.KuruboClient.RemoveListener` | client/src/main/kotlin/br/tiagohm/kurubo/client/KuruboClient.kt:65-67 | the listener leaves the set |
| `Client.KuruboClient.PinCount` | client/src/main/kotlin/br/tiagohm/kurubo/client/KuruboClient.kt:99-100 | the number of found pins |
| `Client.KuruboClient.PinAt` | client/src/main/kotlin/br/tiagohm/kurubo/client/KuruboClient.kt:102-104 | a pin exactly for a found index, and that pin carries the index and this client; otherwise the `!!` failure |
| `Client.KuruboClient.PinChanged` | client/src/main/kotlin/br/tiagohm/kurubo/client/KuruboClient.kt:135-139 | every listener hears that the pin changed |
| `Client.KuruboClient.TwoWireDelay` | client/src/main/kotlin/br/tiagohm/kurubo/client/KuruboClient.kt:106-116 | the longest delay only grows; a longer delay is recorded and sent (or, above 255, recorded and then refused); a shorter one sends nothing |
| `Client.KuruboClient.TwoWireDeviceAt` | client/src/main/kotlin/br/tiagohm/kurubo/client/KuruboClient.kt:118-125 | always registers a fresh device at the address and re-sends the longest delay, since the value-based `contains` never matches an address key; the device is returned unless that configuration throws |
| `Client.KuruboClient.Close` | client/src/main/kotlin/br/tiagohm/kurubo/client/KuruboClient.kt:157-171 | analog and digital reporting are switched off everywhere, each listener hears `onStop`, and the listeners are dropped |
| `Client.KuruboClient.OnFirmware` | client/src/main/kotlin/br/tiagohm/kurubo/client/KuruboClient.kt:375-378 | a firmware report triggers the capability query |
| `Client.KuruboClient.OnPinCapability` | client/src/main/kotlin/br/tiagohm/kurubo/client/KuruboClient.kt:380-396 | a fresh pin with the reported modes replaces any earlier one at that index; a pin without modes counts as initialised, others are queued for their state |
| `Client.KuruboClient.OnCapabilitiesFinished` | client/src/main/kotlin/br/tiagohm/kurubo/client/KuruboClient.kt:398-404 | all pins initialised: the analog mapping is queried; else the first queued pin's state is queried; an empty queue gives a null pin and throws |
| `Client.KuruboClient.OnPinState` | client/src/main/kotlin/br/tiagohm/kurubo/client/KuruboClient.kt:406-418 | a found pin takes the reported mode while its value, supported modes and listeners stay as they were; the next queued pin is queried, and when every pin is initialised the analog mapping is queried; an unknown pin changes nothing |
| `Client.KuruboClient.OnAnalogMapping` | client/src/main/kotlin/br/tiagohm/kurubo/client/KuruboClient.kt:420-431 | the mapping is merged in, the client is ready, and every listener hears `onStart` |
| `Client.KuruboClient.OnAnalogMessage` | client/src/main/kotlin/br/tiagohm/kurubo/client/KuruboClient.kt:433-445 | the value reaches the mapped pin only if it is found and in ANALOG mode, whose mode, supported modes and listeners stay; other pins are untouched; a change is announced to the client's listeners, then the pin's |
| `Client.KuruboClient.AnalogTarget` | client/src/main/kotlin/br/tiagohm/kurubo/client/KuruboClient.kt:435-440 | the target exists exactly when the channel is mapped to a found pin in ANALOG mode |
| `Client.KuruboClient.OnDigitalMessage` | client/src/main/kotlin/br/tiagohm/kurubo/client/KuruboClient.kt:447-453 | the value is taken only by a found pin in INPUT or PULL_UP mode, whose mode, supported modes and listeners stay; other pins are untouched; a change is announced to the client's listeners, then the pin's |
| `Client.KuruboClient.OnString` | client/src/main/kotlin/br/tiagohm/kurubo/client/KuruboClient.kt:455-461 | every listener receives the message |
| `Client.KuruboClient.OnTwoWire` | client/src/main/kotlin/br/tiagohm/kurubo/client/KuruboClient.kt:463-466 | a reply goes to the device at its address, if any: the listener waiting on its register alone receives it and stops waiting, otherwise the device's subscribers as they were receive it; the device keeps its subscribers and receiving flag, and other devices are untouched |
| `Client.FirmataPin.constructor` | client/src/main/kotlin/br/tiagohm/kurubo/client/FirmataPin.kt:6-15 | a new pin: UNSUPPORTED, value 0, no modes and no listeners |
| `Client.FirmataPin.AddPinListener` | client/src/main/kotlin/br/tiagohm/kurubo/client/FirmataPin.kt:106-108 | the listener joins the pin's set |
| `Client.FirmataPin.RemovePinListener` | client/src/main/kotlin/br/tiagohm/kurubo/client/FirmataPin.kt:110-113 | the listener leaves the pin's set |
| `Client.FirmataPin.RemoveAllPinListeners` | client/src/main/kotlin/br/tiagohm/kurubo/client/FirmataPin.kt:115-117 | the pin's listeners are dropped |
| `Client.FirmataPin.AddSupportedMode` | client/src/main/kotlin/br/tiagohm/kurubo/client/FirmataPin.kt:119-121 | the mode joins the supported set |
| `Client.FirmataPin.InitMode` | client/src/main/kotlin/br/tiagohm/kurubo/client/FirmataPin.kt:123-125 | the mode is set without a command or a notice |
| `Client.FirmataPin.InitValue` | client/src/main/kotlin/br/tiagohm/kurubo/client/FirmataPin.kt:127-129 | the value is set without a command or a notice |
| `Client.FirmataPin.UpdateValue` | client/src/main/kotlin/br/tiagohm/kurubo/client/FirmataPin.kt:131-145 | reports a change exactly when the value differs; a change is announced to the client's listeners, then the pin's |
| `Client.FirmataPin.UpdateMode` | client/src/main/kotlin/br/tiagohm/kurubo/client/FirmataPin.kt:74-100 | an unsupported mode throws and changes nothing; the current mode changes nothing; otherwise servo configuration (value -1), mode command and state query are sent, and the change is announced |
| `Client.FirmataPin.ChangeMode` | client/src/main/kotlin/br/tiagohm/kurubo/client/FirmataPin.kt:78-99 | the change path: mode set, servo value -1, the mode frames sent in order, the change announced |
| `Client.FirmataPin.SetMode` | client/src/main/kotlin/br/tiagohm/kurubo/client/FirmataPin.kt:17-22 | `updateMode` with the Arduino default pulse range 544..2400: an unsupported mode throws and the current mode changes nothing; otherwise the mode is set, a servo's value becomes -1 (any other keeps it), the mode frames are sent, and the client's listeners then the pin's hear of the change |
| `Client.FirmataPin.ServoMode` | client/src/main/kotlin/br/tiagohm/kurubo/client/FirmataPin.kt:70-72 | `updateMode(SERVO, ...)`: unsupported throws, already SERVO changes nothing; otherwise the value becomes unknown (-1), the servo config, mode and state-query frames are sent, and the change is announced to the client's listeners, then the pin's |
| `Client.FirmataPin.ReadPort` | client/src/main/kotlin/br/tiagohm/kurubo/client/FirmataPin.kt:35-43 | finds every pin of the port exactly when all eight are present, and then returns the port byte of their on/off states |
| `Client.FirmataPin.ReadPin` | client/src/main/kotlin/br/tiagohm/kurubo/client/FirmataPin.kt:38-42 | one round: a present pin adds its bit; a missing one means the port is not complete |
| `Client.FirmataPin.WritePort` | client/src/main/kotlin/br/tiagohm/kurubo/client/FirmataPin.kt:33-53 | a complete port sends the DIGITAL_MESSAGE of its byte with this pin's bit forced; a missing pin throws before anything is sent |
| `Client.FirmataPin.SetValue` | client/src/main/kotlin/br/tiagohm/kurubo/client/FirmataPin.kt:24-68 | OUTPUT stores 0/1 and on a change sends the port byte (throwing after the update if a port pin is missing); ANALOG/PWM/SERVO store the value and on a change send an analog write; other modes throw InvalidPinWrite |
| `Client.ModeFrames` | client/src/main/kotlin/br/tiagohm/kurubo/client/FirmataPin.kt:78-99 | the commands a mode change sends, in order |
| `Client.TwoWireDevice.constructor` | client/src/main/kotlin/br/tiagohm/kurubo/client/TwoWireDevice.kt:9-16 | a new device: not receiving, no callbacks, no subscribers |
| `Client.TwoWireDevice.Delay` | client/src/main/kotlin/br/tiagohm/kurubo/client/TwoWireDevice.kt:18-20 | delegates to `twoWireDelay`: the longest delay only grows |
| `Client.TwoWireDevice.Tell` | client/src/main/kotlin/br/tiagohm/kurubo/client/TwoWireDevice.kt:22-24 | exactly the `twoWireWrite` frame for the device's address |
| `Client.TwoWireDevice.Ask` | client/src/main/kotlin/br/tiagohm/kurubo/client/TwoWireDevice.kt:30-33 | the listener replaces any waiting on the register, and a one-shot read is sent |
| `Client.TwoWireDevice.AskAny` | client/src/main/kotlin/br/tiagohm/kurubo/client/TwoWireDevice.kt:26-28 | a read without a register, its listener waiting under REGISTER_NOT_SET |
| `Client.TwoWireDevice.AskSync` | client/src/main/kotlin/br/tiagohm/kurubo/client/TwoWireDevice.kt:35-47 | sends the read and registers the waiter; with no reply during the call the answer is null |
| `Client.TwoWireDevice.AddListener` | client/src/main/kotlin/br/tiagohm/kurubo/client/TwoWireDevice.kt:49-51 | the subscriber joins the set |
| `Client.TwoWireDevice.RemoveListener` | client/src/main/kotlin/br/tiagohm/kurubo/client/TwoWireDevice.kt:53-55 | the subscriber leaves the set |
| `Client.TwoWireDevice.StartReceivingUpdates` | client/src/main/kotlin/br/tiagohm/kurubo/client/TwoWireDevice.kt:57-65 | only a device not yet receiving starts, sending a continuous read; the result says whether it started |
| `Client.TwoWireDevice.StartReceivingAllUpdates` | client/src/main/kotlin/br/tiagohm/kurubo/client/TwoWireDevice.kt:67-75 | the same, with no register |
| `Client.TwoWireDevice.StopReceivingUpdates` | client/src/main/kotlin/br/tiagohm/kurubo/client/TwoWireDevice.kt:77-81 | only a receiving device sends the stop frame; afterwards it is not receiving |
| `Client.TwoWireDevice.OnReceive` | client/src/main/kotlin/br/tiagohm/kurubo/client/TwoWireDevice.kt:83-92 | a listener waiting on the register gets the reply alone and is removed; with none waiting, every subscriber gets it |

## Left out

- Concurrency: the executor, thread pool, locks, `synchronized` blocks, `@Volatile` and the atomics. Compare-and-set loops (`run`, `twoWireDelay`, `startReceivingUpdates`) are modelled as single sequential updates.
- Handler execution: `handle` records the deliveries it schedules, with their handler chains. The client's handlers (`On*`) are separate methods. Dispatching an event to the matching `On*` method is not modelled, nor the order in which executor threads run handlers.
- Handler registration: the `init` blocks (`KuruboClient.kt:42-46` and `468-479`) and the `addHandler` pass-through (`KuruboClient.kt:127-133`) are not modelled. They would be calls of `Machine.FiniteStateMachine.AddHandler`.
- Logging: every `LOG` call is left out. So are the version-message and terminal-state handlers, which only log, and the warning in `text`.
- I/O: `Transport.read`, bulk `write(data, offset, length)` and `close` are left out. So are the parser thread (`FirmataParser.kt` is not part of this model), `shutdown` and `parser.interrupt`. The I/O failure path of `run`, which closes the transport and rethrows, is also left out, because writes cannot fail in the model.
- State construction: the reflective construction of states cannot fail in the model, so the `IllegalArgumentException` branch of `FiniteStateMachine.transitTo(type)` is left out.
- `ParsingAnalogMessageState.kt` is not part of this model. `WaitingForMessageState.kt:20` refers to it. It is modelled like the digital message state: two bytes, then one `AnalogMessageEvent(portId, value or (b shl 7))`, then waiting.
- Listener order: listeners and subscribers are sets, and one broadcast is recorded as one notice to the whole set. The order in which set members are called is not modelled.
- Getters and `toString`: `pins`, `isReady` and `toString` are plain reads and have no model members. `supports(mode)` (`FirmataPin.kt:102-104`) is the membership test `mode in supportedModes`, which the mode-change contracts (`Client.FirmataPin.UpdateMode`, `SetMode`, `ServoMode`) state directly.
- Client.KuruboClient.EnsureInitializationIsDone: nothing else runs during the wait, so a client that is not ready always fails. A handshake that completes during the wait is not modelled.
- Client.TwoWireDevice.AskSync: nothing else runs during the wait, so the answer is always null. A reply that arrives within the timeout is not modelled. The no-register overload (`TwoWireDevice.kt:35-37`) is not modelled separately.
- ByteQueue.ByteBlockingQueue.Take: requires a non-empty queue. Waiting for a producer needs a second thread.
- RoundTrips.AnalogWriteExtendedRoundTrip: covers pins 16..127 and values 0..2^28-1, except the two thresholds. Pins of 128 or more are written unmasked and would be read as a command. Values from 2^28 up add a fifth group that the parser cannot fold into 32 bits. Negative values are not covered.
- RoundTrips.TextRoundTrip: covers ASCII messages. A character from 0x80 up is encoded as `?` (`Commands.AsciiByte`), so it does not round-trip.
- Client.FirmataPin.UpdateMode: states the commands sent and the notices given, each in order. Notices and commands are recorded in two separate logs, so their interleaving is not stated.
