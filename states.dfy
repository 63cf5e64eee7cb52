/**
 * The states of the inbound frame parser (the sealed `AbstractState` family of
 * `protocol.fsm.state`) and what one byte does to each of them.
 *
 * A state is a value here: its counters, its map and its `ByteArrayOutputStream`
 * contents (`buf`, the first `count` bytes written) are constructor fields. What
 * a state's `process(b)` does is `Step`: the machine either moves to a next state
 * after publishing some events (`Moved`), or an exception escapes `process`
 * before anything was published or replaced (`Thrown`).
 */
module States {
  import opened Bitwise
  import opened FirmataProtocol
  import opened Wrappers
  import opened PinModes
  import opened Events

  datatype State =
    | WaitingForMessage
    | ParsingDigitalMessage(portId: int32, counter: int32, value: int32)
    | ParsingAnalogMessage(portId: int32, counter: int32, value: int32)
    | ParsingVersionMessage(counter: int32, major: int32)
    | ParsingSysexMessage
    | ParsingFirmwareMessage(buf: seq<byte>)
    | ParsingExtendedAnalogMessage(buf: seq<byte>)
    | ParsingCapabilityResponse(pin: int32, buf: seq<byte>)
    | ParsingAnalogMapping(mapping: map<int32, int32>, portId: int32)
    | PinStateParsing(buf: seq<byte>)
    | ParsingStringMessage(buf: seq<byte>)
    | ParsingTwoWireMessage(buf: seq<byte>)
    | ParsingCustomSysexMessage(buf: seq<byte>)

  datatype Outcome = Moved(next: State, events: seq<Event>) | Thrown

  /** A state as its no-argument constructor leaves it: zero counters, nothing buffered. */
  predicate Fresh(s: State) {
    match s
    case ParsingDigitalMessage(_, counter, value) => counter == 0 && value == 0
    case ParsingAnalogMessage(_, counter, value) => counter == 0 && value == 0
    case ParsingVersionMessage(counter, major) => counter == 0 && major == 0
    case ParsingFirmwareMessage(buf) => buf == []
    case ParsingExtendedAnalogMessage(buf) => buf == []
    case ParsingCapabilityResponse(pin, buf) => pin == 0 && buf == []
    case ParsingAnalogMapping(mapping, portId) => mapping == map[] && portId == 0
    case PinStateParsing(buf) => buf == []
    case ParsingStringMessage(buf) => buf == []
    case ParsingTwoWireMessage(buf) => buf == []
    case ParsingCustomSysexMessage(buf) => buf == []
    case _ => true
  }

  /**
   * The stream's backing array read at index 0 .. n - 1: the bytes written so
   * far, then the zeros the array was created with (its capacity is never below 32,
   * and every index read here is below that).
   */
  function Padded(buf: seq<byte>, n: nat): (r: seq<byte>)
    ensures |r| >= n && |r| >= |buf| && r[..|buf|] == buf
    ensures forall i :: |buf| <= i < |r| ==> r[i] == 0
  {
    if |buf| >= n then buf else buf + seq(n - |buf|, _ => 0)
  }

  // ---------------------------------------------------------------------------
  // WaitingForMessageState

  /** The dispatch key of a leading byte: its high nibble below 0xF0, the byte itself above. */
  function DispatchKey(b: byte): (r: int32)
    ensures b < 0xF0 ==> r == And(b, 0xF0)
    ensures b >= 0xF0 ==> r == b
  {
    if b < 0xF0 then
      AndHighNibble(b);
      b / 0x10 * 0x10
    else b
  }

  /** `b and 0x0F`: the channel or port number carried in a leading byte. */
  function LowNibble(b: byte): (r: int32)
    ensures r == And(b, 0x0F) && 0 <= r < 0x10
  {
    Pow2Values();
    assert Pow2(4) == 0x10;
    AndLowMask(b, 0x0F, 4);
    b % 0x10
  }

  function WaitingStep(b: byte): Outcome {
    var command := DispatchKey(b);
    if command == DIGITAL_MESSAGE then Moved(ParsingDigitalMessage(LowNibble(b), 0, 0), [])
    else if command == ANALOG_MESSAGE then Moved(ParsingAnalogMessage(LowNibble(b), 0, 0), [])
    else if command == REPORT_VERSION then Moved(ParsingVersionMessage(0, 0), [])
    else if command == START_SYSEX then Moved(ParsingSysexMessage, [])
    else if command == SYSTEM_RESET then Moved(WaitingForMessage, [SystemResetEvent])
    else Moved(WaitingForMessage, [ErrorEvent(command)])
  }

  // ---------------------------------------------------------------------------
  // ParsingSysexMessageState

  /** The sub-commands with a dedicated state, and the fresh state each selects. */
  function SysexTarget(b: byte): Option<State> {
    if b == REPORT_FIRMWARE then Some(ParsingFirmwareMessage([]))
    else if b == EXTENDED_ANALOG then Some(ParsingExtendedAnalogMessage([]))
    else if b == CAPABILITY_RESPONSE then Some(ParsingCapabilityResponse(0, []))
    else if b == ANALOG_MAPPING_RESPONSE then Some(ParsingAnalogMapping(map[], 0))
    else if b == PIN_STATE_RESPONSE then Some(PinStateParsing([]))
    else if b == STRING_DATA then Some(ParsingStringMessage([]))
    else if b == TWO_WIRE_REPLY then Some(ParsingTwoWireMessage([]))
    else None
  }

  /**
   * Any other byte is fed to a new custom-sysex state, which then becomes current.
   * When that byte is END_SYSEX the new state publishes an empty message and
   * moves the machine to waiting, and the dispatcher then installs the new state
   * over it.
   */
  function SysexStep(b: byte): Outcome {
    match SysexTarget(b)
    case Some(next) => Moved(next, [])
    case None =>
      if b == END_SYSEX then Moved(ParsingCustomSysexMessage([]), [CustomMessageEvent([])])
      else Moved(ParsingCustomSysexMessage([b]), [])
  }

  // ---------------------------------------------------------------------------
  // ParsingDigitalMessageState and the analog message, which has the same shape

  /** `value ushr i and 0x01`: bit i of the 32-bit pattern. */
  function PatternBit(value: int32, i: nat): (r: int32)
    requires i < 32
    ensures r == 0 || r == 1
  {
    (Unsigned(value) / Pow2(i)) % 2
  }

  /** The eight events of a digital message: pin `portId * 8 + i` gets bit i of `value`. */
  function DigitalEvents(portId: int32, value: int32): (es: seq<Event>)
    ensures |es| == 8
  {
    var pin := Wrap(portId * 8);
    seq(8, i requires 0 <= i < 8 => DigitalMessageEvent(Wrap(pin + i), PatternBit(value, i)))
  }

  /** `value or (b shl 7)` */
  function SecondGroup(value: int32, b: byte): int32 {
    Or(value, Shl(b, 7))
  }

  function DigitalStep(portId: int32, counter: int32, value: int32, b: byte): Outcome {
    if counter == 0 then Moved(ParsingDigitalMessage(portId, 1, b), [])
    else if counter == 1 then Moved(WaitingForMessage, DigitalEvents(portId, SecondGroup(value, b)))
    else Moved(ParsingDigitalMessage(portId, counter, value), [])
  }

  function AnalogStep(portId: int32, counter: int32, value: int32, b: byte): Outcome {
    if counter == 0 then Moved(ParsingAnalogMessage(portId, 1, b), [])
    else if counter == 1 then
      Moved(WaitingForMessage, [AnalogMessageEvent(portId, SecondGroup(value, b))])
    else Moved(ParsingAnalogMessage(portId, counter, value), [])
  }

  // ---------------------------------------------------------------------------
  // ParsingVersionMessageState

  function VersionStep(counter: int32, major: int32, b: byte): Outcome {
    if counter == 0 then Moved(ParsingVersionMessage(Wrap(counter + 1), b), [])
    else Moved(WaitingForMessage, [VersionMessageEvent(major, b)])
  }

  // ---------------------------------------------------------------------------
  // ParsingCapabilityResponseState

  /**
   * The modes of the buffered bytes at even offsets below i, resolved in order;
   * `None` when one of them does not resolve.
   */
  function ModesBelow(buf: seq<byte>, i: nat): Option<set<PinMode>>
    requires i % 2 == 0 && i <= |buf| + 1
  {
    if i == 0 then Some({})
    else
      match ModesBelow(buf, i - 2)
      case None => None
      case Some(modes) =>
        match Resolve(SignedByte(buf[i - 2]))
        case None => None
        case Some(m) => Some(modes + {m})
  }

  /** The loop `while (i < count) { add(resolve(buf[i])); i += 2 }` runs to the first even index not below count. */
  function CapabilityModes(buf: seq<byte>): Option<set<PinMode>> {
    ModesBelow(buf, |buf| + |buf| % 2)
  }

  function CapabilityStep(pin: int32, buf: seq<byte>, b: byte): Outcome {
    if b == END_SYSEX then Moved(WaitingForMessage, [PinCapabilitiesFinishedEvent])
    else if b == 127 then
      match CapabilityModes(buf)
      case None => Thrown
      case Some(modes) =>
        Moved(ParsingCapabilityResponse(Wrap(pin + 1), []), [PinCapabilityResponseEvent(pin, modes)])
    else Moved(ParsingCapabilityResponse(pin, buf + [b]), [])
  }

  // ---------------------------------------------------------------------------
  // ParsingAnalogMappingState

  function AnalogMappingStep(mapping: map<int32, int32>, portId: int32, b: byte): Outcome {
    if b == END_SYSEX then Moved(WaitingForMessage, [AnalogMappingEvent(mapping)])
    else if b != 127 then Moved(ParsingAnalogMapping(mapping[b := portId], Wrap(portId + 1)), [])
    else Moved(ParsingAnalogMapping(mapping, Wrap(portId + 1)), [])
  }

  // ---------------------------------------------------------------------------
  // PinStateParsingState and ParsingExtendedAnalogMessageState

  /**
   * The value the loop `for (i in lo until hi) value = value or (buf[i].toInt() shl 7 * (i - base))`
   * leaves, starting from `init`. The JVM keeps the low five bits of the distance.
   */
  function OrFold(buf: seq<byte>, lo: nat, hi: nat, init: int32, base: nat): int32
    requires base <= lo && (hi <= lo || hi <= |buf|)
    decreases hi
  {
    if hi <= lo then init
    else Or(OrFold(buf, lo, hi - 1, init, base), Shl(SignedByte(buf[hi - 1]), (7 * (hi - 1 - base)) % 32))
  }

  function PinStateValue(buf: seq<byte>): int32 {
    OrFold(buf, 2, |buf|, 0, 2)
  }

  function PinStateStep(buf: seq<byte>, b: byte): Outcome {
    if b == END_SYSEX then
      var head := Padded(buf, 2);
      match Resolve(SignedByte(head[1]))
      case None => Thrown
      case Some(mode) =>
        Moved(WaitingForMessage, [PinStateEvent(SignedByte(head[0]), mode, PinStateValue(buf))])
    else Moved(PinStateParsing(buf + [b]), [])
  }

  function ExtendedAnalogValue(buf: seq<byte>): int32 {
    OrFold(buf, 2, |buf|, SignedByte(Padded(buf, 2)[1]), 1)
  }

  function ExtendedAnalogStep(buf: seq<byte>, b: byte): Outcome {
    if b == END_SYSEX then
      Moved(WaitingForMessage, [AnalogMessageEvent(SignedByte(Padded(buf, 1)[0]), ExtendedAnalogValue(buf))])
    else Moved(ParsingExtendedAnalogMessage(buf + [b]), [])
  }

  // ---------------------------------------------------------------------------
  // ParsingStringMessageState and ParsingFirmwareMessageState

  /**
   * `ParsingStringMessageState.decode(buffer, offset, length)`: `length / 2`
   * characters (Kotlin's division truncates toward zero), character k decoded
   * from the byte pair at `offset + 2k`. A negative character count raises
   * NegativeArraySizeException, which is `None`.
   */
  function DecodeString(buffer: seq<byte>, offset: nat, length: int): (r: Option<string>)
    requires offset + length <= |buffer|
    ensures r.Some? <==> Quot(length, 2) >= 0
  {
    var n := Quot(length, 2);
    if n < 0 then None
    else Some(seq(n, k requires 0 <= k < n => Decode7Bit(buffer, offset + 2 * k) as char))
  }

  function StringStep(buf: seq<byte>, b: byte): Outcome {
    if b == END_SYSEX then
      match DecodeString(buf, 0, |buf|)
      case None => Thrown
      case Some(message) => Moved(WaitingForMessage, [StringMessageEvent(message)])
    else Moved(ParsingStringMessage(buf + [b]), [])
  }

  function FirmwareStep(buf: seq<byte>, b: byte): Outcome {
    if b == END_SYSEX then
      var head := Padded(buf, 2);
      match DecodeString(head, 2, |buf| - 2)
      case None => Thrown
      case Some(name) =>
        Moved(WaitingForMessage, [FirmwareMessageEvent(SignedByte(head[0]), SignedByte(head[1]), name)])
    else Moved(ParsingFirmwareMessage(buf + [b]), [])
  }

  // ---------------------------------------------------------------------------
  // ParsingTwoWireMessageState

  /**
   * The reply's address (pair at 0), register (pair at 2) and `(count - 4) / 2`
   * data values (pairs from 4 on); a negative data count raises, which is `None`.
   */
  function TwoWireDecode(buf: seq<byte>): (r: Option<Event>)
    ensures r.Some? <==> Quot(|buf| - 4, 2) >= 0
    ensures r.Some? ==> r.value.TwoWireMessageEvent? && |r.value.data| == Quot(|buf| - 4, 2)
  {
    var head := Padded(buf, 4);
    var n := Quot(|buf| - 4, 2);
    if n < 0 then None
    else
      Some(TwoWireMessageEvent(Decode7Bit(head, 0), Decode7Bit(head, 2),
                               seq(n, k requires 0 <= k < n => Decode7Bit(buf, 4 + 2 * k))))
  }

  function TwoWireStep(buf: seq<byte>, b: byte): Outcome {
    if b == END_SYSEX then
      match TwoWireDecode(buf)
      case None => Thrown
      case Some(e) => Moved(WaitingForMessage, [e])
    else Moved(ParsingTwoWireMessage(buf + [b]), [])
  }

  // ---------------------------------------------------------------------------
  // ParsingCustomSysexMessageState

  function CustomStep(buf: seq<byte>, b: byte): Outcome {
    if b == END_SYSEX then Moved(WaitingForMessage, [CustomMessageEvent(buf)])
    else Moved(ParsingCustomSysexMessage(buf + [b]), [])
  }

  // ---------------------------------------------------------------------------

  /** `state.process(b)` for every state of the sealed family. */
  function Step(s: State, b: byte): Outcome {
    match s
    case WaitingForMessage => WaitingStep(b)
    case ParsingDigitalMessage(portId, counter, value) => DigitalStep(portId, counter, value, b)
    case ParsingAnalogMessage(portId, counter, value) => AnalogStep(portId, counter, value, b)
    case ParsingVersionMessage(counter, major) => VersionStep(counter, major, b)
    case ParsingSysexMessage => SysexStep(b)
    case ParsingFirmwareMessage(buf) => FirmwareStep(buf, b)
    case ParsingExtendedAnalogMessage(buf) => ExtendedAnalogStep(buf, b)
    case ParsingCapabilityResponse(pin, buf) => CapabilityStep(pin, buf, b)
    case ParsingAnalogMapping(mapping, portId) => AnalogMappingStep(mapping, portId, b)
    case PinStateParsing(buf) => PinStateStep(buf, b)
    case ParsingStringMessage(buf) => StringStep(buf, b)
    case ParsingTwoWireMessage(buf) => TwoWireStep(buf, b)
    case ParsingCustomSysexMessage(buf) => CustomStep(buf, b)
  }
}
