/**
 * The outbound commands of KuruboClient.kt: for each encoder, the values it
 * passes to `transport.write`, in order. The client's methods write exactly
 * these (client.dfy); here they are values, so that what a command says can be
 * stated and proved once.
 *
 * `write(b: Int)` puts the low eight bits of `b` on the wire (`Wire`).
 */
module Commands {
  import opened Bitwise
  import opened FirmataProtocol
  import opened Wrappers
  import opened PinModes
  import opened Boards
  import opened Transport

  /** `TwoWire.REGISTER_NOT_SET`: the register argument meaning "no register". */
  const REGISTER_NOT_SET: int32 := -1

  /** The byte an `OutputStream.write(b)` emits: the low eight bits of `b`. */
  function Wire(ws: seq<int32>): (bytes: seq<byte>)
    ensures |bytes| == |ws|
    ensures forall i :: 0 <= i < |ws| ==> 0 <= ws[i] < 0x100 ==> bytes[i] == ws[i]
  {
    seq(|ws|, i requires 0 <= i < |ws| => ws[i] % 0x100)
  }

  /** The two writes of `sendValueAsTwo7bitBytes(value)`. */
  function TwoBytes(value: int32): seq<int32> {
    [Lsb7(value), Msb7(value)]
  }

  /** `if (enabled) 1 else 0` */
  function Flag(enabled: bool): int32 {
    if enabled then 1 else 0
  }

  /** `command or x` for a command byte with a clear low nibble and x in 0..15 puts x in that nibble. */
  lemma OrLowNibble(command: int32, x: int32)
    requires 0 <= command < 0x100 && command % 0x10 == 0 && 0 <= x < 0x10
    ensures Or(command, x) == command + x
  {
    var y := command / 0x10;
    assert y * 0x10 == command;
    assert Pow2(4) == 0x10;
    OrDisjoint(x, y, 4);
    OrCommutes(command, x);
  }

  /** `x and 0x0F`, the port or channel nibble of a leading byte. */
  function Nibble(x: int32): (r: int32)
    ensures r == And(x, 0x0F)
    ensures 0 <= r < 0x10 && r == x % 0x10
  {
    Pow2Values();
    assert Pow2(4) == 0x10;
    AndLowMask(x, 0x0F, 4);
    x % 0x10
  }

  // ---------------------------------------------------------------------------
  // The three-byte sysex queries

  /** `analogMapping()` */
  function AnalogMappingQuery(): seq<int32> {
    [START_SYSEX, ANALOG_MAPPING_QUERY, END_SYSEX]
  }

  /** `capability()` */
  function CapabilityQuery(): seq<int32> {
    [START_SYSEX, CAPABILITY_QUERY, END_SYSEX]
  }

  /** `requestFirmware()` */
  function FirmwareQuery(): seq<int32> {
    [START_SYSEX, REPORT_FIRMWARE, END_SYSEX]
  }

  /** `pinState(pin)` */
  function PinStateQuery(pin: int32): seq<int32> {
    [START_SYSEX, PIN_STATE_QUERY, pin, END_SYSEX]
  }

  // ---------------------------------------------------------------------------
  // Digital and analog values

  /**
   * `digitalWrite(portId, value)`: a DIGITAL_MESSAGE carrying the port in its
   * low nibble, then the value's two 7-bit groups.
   */
  function DigitalWrite(portId: int32, value: int32): (ws: seq<int32>)
    ensures |ws| == 3 && ws[0] == DIGITAL_MESSAGE + portId % 0x10
    ensures ws[1..] == TwoBytes(value)
  {
    OrLowNibble(DIGITAL_MESSAGE, Nibble(portId));
    [Or(DIGITAL_MESSAGE, Nibble(portId))] + TwoBytes(value)
  }

  /** `value ushr k and 0x7F`: the 7-bit group of the 32-bit pattern starting at bit k. */
  function Group7(value: int32, k: nat): (r: int32)
    requires k == 14 || k == 21 || k == 28
    ensures 0 <= r < 0x80
    ensures r == (Unsigned(value) / Pow2(k)) % 0x80
  {
    Pow2Values();
    var u := Unsigned(value);
    assert u / Pow2(k) < TWO_31 by {
      if k == 14 {
        assert u / 0x4000 < TWO_31;
      } else if k == 21 {
        assert u / 0x20_0000 < TWO_31;
      } else {
        assert u / 0x1000_0000 < TWO_31;
      }
    }
    AndLowMask(Ushr(value, k), 0x7F, 7);
    And(Ushr(value, k), 0x7F)
  }

  /** The groups past the first two that the extended form adds, each only above its threshold. */
  function HigherGroups(value: int32): seq<int32> {
    (if value > 0x0000_4000 then [Group7(value, 14)] else [])
    + (if value > 0x0020_0000 then [Group7(value, 21)] else [])
    + (if value > 0x1000_0000 then [Group7(value, 28)] else [])
  }

  /**
   * `analogWrite(pin, value)`: pins 0 .. 15 (and every negative pin) use the
   * three-byte ANALOG_MESSAGE, the others an EXTENDED_ANALOG sysex.
   */
  function AnalogWrite(pin: int32, value: int32): (ws: seq<int32>)
    ensures pin <= 15 ==> ws == [ANALOG_MESSAGE + pin % 0x10] + TwoBytes(value)
    ensures pin > 15 ==> 6 <= |ws| <= 9 && ws[..5] == [START_SYSEX, EXTENDED_ANALOG, pin] + TwoBytes(value)
                         && ws[|ws| - 1] == END_SYSEX
    ensures pin > 15 ==> forall i :: 3 <= i < |ws| - 1 ==> 0 <= ws[i] < 0x80
  {
    if pin <= 15 then
      OrLowNibble(ANALOG_MESSAGE, Nibble(pin));
      [Or(ANALOG_MESSAGE, Nibble(pin))] + TwoBytes(value)
    else
      [START_SYSEX, EXTENDED_ANALOG, pin] + TwoBytes(value) + HigherGroups(value) + [END_SYSEX]
  }

  // ---------------------------------------------------------------------------
  // Reporting

  /** `analogPinReport(pin, enabled)`: the board's analog channel of the pin, not masked. */
  function AnalogPinReport(board: Board, pin: int32, enabled: bool): seq<int32> {
    [Or(REPORT_ANALOG, PinToAnalogIndex(board, pin)), Flag(enabled)]
  }

  /** `digitalPinReport(pin, enabled)` */
  function DigitalPinReport(board: Board, pin: int32, enabled: bool): seq<int32> {
    [Or(REPORT_DIGITAL, PinToDigitalIndex(board, pin)), Flag(enabled)]
  }

  /** The writes of the first n rounds of `repeat(16) { write(command or it); write(flag) }`. */
  function Reports(command: int32, enabled: bool, n: nat): (ws: seq<int32>)
    requires n <= 16 && 0 <= command < 0x100 && command % 0x10 == 0
    ensures |ws| == 2 * n
  {
    if n == 0 then [] else Reports(command, enabled, n - 1) + [command + (n - 1), Flag(enabled)]
  }

  /** Round k of the report loop names channel or port k in the command's low nibble, then the flag. */
  lemma ReportsContent(command: int32, enabled: bool, n: nat)
    requires n <= 16 && 0 <= command < 0x100 && command % 0x10 == 0
    ensures forall k :: 0 <= k < n ==>
              Reports(command, enabled, n)[2 * k] == Or(command, k) == command + k
              && Reports(command, enabled, n)[2 * k + 1] == Flag(enabled)
  {
    forall k | 0 <= k < n
      ensures Reports(command, enabled, n)[2 * k] == Or(command, k) == command + k
      ensures Reports(command, enabled, n)[2 * k + 1] == Flag(enabled)
    {
      ReportAt(command, enabled, n, k);
      OrLowNibble(command, k);
    }
  }

  /** Round k's pair of bytes, which later rounds leave in place. */
  lemma {:induction false} ReportAt(command: int32, enabled: bool, n: nat, k: nat)
    requires k < n <= 16 && 0 <= command < 0x100 && command % 0x10 == 0
    ensures Reports(command, enabled, n)[2 * k] == command + k
    ensures Reports(command, enabled, n)[2 * k + 1] == Flag(enabled)
    decreases n
  {
    if k < n - 1 {
      ReportAt(command, enabled, n - 1, k);
    }
  }

  // ---------------------------------------------------------------------------
  // Configuration

  /** `max(MIN_SAMPLING_INTERVAL, min(interval, MAX_SAMPLING_INTERVAL))` */
  function ClampInterval(interval: int32): (v: int32)
    ensures MIN_SAMPLING_INTERVAL <= v <= MAX_SAMPLING_INTERVAL
    ensures MIN_SAMPLING_INTERVAL <= interval <= MAX_SAMPLING_INTERVAL ==> v == interval
    ensures interval < MIN_SAMPLING_INTERVAL ==> v == MIN_SAMPLING_INTERVAL
    ensures interval > MAX_SAMPLING_INTERVAL ==> v == MAX_SAMPLING_INTERVAL
  {
    var m := if interval < MAX_SAMPLING_INTERVAL then interval else MAX_SAMPLING_INTERVAL;
    if MIN_SAMPLING_INTERVAL > m then MIN_SAMPLING_INTERVAL else m
  }

  /**
   * `samplingInterval(interval)`: the interval, clamped into [10, 100], as two
   * 7-bit groups that add back up to it.
   */
  function SamplingInterval(interval: int32): (ws: seq<int32>)
    ensures |ws| == 5 && ws[0] == START_SYSEX && ws[1] == SAMPLING_INTERVAL && ws[4] == END_SYSEX
    ensures ws[2] as int + 0x80 * ws[3] as int == ClampInterval(interval)
    ensures 0 <= ws[2] < 0x80 && ws[3] == 0
  {
    var v := ClampInterval(interval);
    Two7bitBytesRecombine(v);
    [START_SYSEX, SAMPLING_INTERVAL] + TwoBytes(v) + [END_SYSEX]
  }

  /** `servoConfig(pin, minPulse, maxPulse)` */
  function ServoConfig(pin: int32, minPulse: int32, maxPulse: int32): seq<int32> {
    [START_SYSEX, SERVO_CONFIG, pin] + TwoBytes(minPulse) + TwoBytes(maxPulse) + [END_SYSEX]
  }

  /** `mode(pin, mode)`: the mode is sent as its ordinal. */
  function ModeCommand(pin: int32, mode: PinMode): seq<int32> {
    [SET_PIN_MODE, pin, Ordinal(mode)]
  }

  /**
   * `twoWireConfig(delay)`: `None` is the IllegalArgumentException `require`
   * raises for a delay outside 0 .. 255. The low group is `delay and 0x7F`
   * (`Lsb7`); the high group is written as
   * `delay > 128`, so every delay but 128 goes out as its two 7-bit groups,
   * and 128 goes out as 00 00.
   */
  function TwoWireConfig(delay: int32): (r: Option<seq<int32>>)
    ensures r.Some? <==> 0 <= delay <= 255
    ensures r.Some? ==> r.value == DelayFrame(delay)
  {
    if delay < 0 then None
    else if delay > 255 then None
    else Some(DelayFrame(delay))
  }

  /** The frame `twoWireConfig` writes for a delay it accepts. */
  function DelayFrame(delay: int32): (ws: seq<int32>)
    requires 0 <= delay <= 255
    ensures |ws| == 5 && ws[0] == START_SYSEX && ws[1] == TWO_WIRE_CONFIG && ws[4] == END_SYSEX
    ensures 0 <= ws[2] < 0x80 && 0 <= ws[3] <= 1
    ensures delay != 128 ==> ws[2] as int + 0x80 * ws[3] as int == delay
    ensures delay == 128 ==> ws[2] == 0 && ws[3] == 0
  {
    var lsb := Lsb7(delay);
    var msb: int32 := if delay > 128 then 1 else 0;
    assert delay >= 0x80 ==> lsb == delay - 0x80 by {
      if delay >= 0x80 {
        DivUnique(delay, 0x80, 1, delay - 0x80);
      }
    }
    [START_SYSEX, TWO_WIRE_CONFIG, lsb, msb, END_SYSEX]
  }

  // ---------------------------------------------------------------------------
  // Text and two-wire payloads

  /** The US_ASCII encoding of one character: itself below 0x80, the replacement '?' otherwise. */
  function AsciiByte(c: char): (b: int8)
    ensures 0 <= b < 0x80
    ensures (c as int) < 0x80 ==> b == c as int
  {
    if (c as int) < 0x80 then c as int else 0x3F
  }

  /** `message.toByteArray(Charsets.US_ASCII)` */
  function Ascii(message: string): (bytes: seq<int8>)
    ensures |bytes| == |message|
    ensures forall i :: 0 <= i < |message| ==> bytes[i] == AsciiByte(message[i])
  {
    seq(|message|, i requires 0 <= i < |message| => AsciiByte(message[i]))
  }

  /**
   * The writes of `for (i in bytes.indices) sendValueAsTwo7bitBytes(bytes[i].toInt())`:
   * every byte as two 7-bit groups, in order, none of them a command byte.
   */
  function Pairs(bytes: seq<int8>): (ws: seq<int32>)
    ensures |ws| == 2 * |bytes|
    ensures forall k :: 0 <= k < |bytes| ==> ws[2 * k] == Lsb7(bytes[k]) && ws[2 * k + 1] == Msb7(bytes[k])
    ensures forall i :: 0 <= i < |ws| ==> 0 <= ws[i] < 0x80
  {
    if bytes == [] then []
    else Pairs(bytes[..|bytes| - 1]) + TwoBytes(bytes[|bytes| - 1])
  }

  /** `text(message)`: a STRING_DATA sysex with the ASCII bytes of the message, two 7-bit groups each. */
  function Text(message: string): seq<int32> {
    [START_SYSEX, STRING_DATA] + Pairs(Ascii(message)) + [END_SYSEX]
  }

  /**
   * `twoWireRead(slaveAddress, register, bytesToRead, continuous)`: the register
   * pair is left out exactly when the register is REGISTER_NOT_SET.
   */
  function TwoWireRead(address: int32, register: int32, bytesToRead: int32, continuous: bool): (ws: seq<int32>)
    ensures |ws| == if register == REGISTER_NOT_SET then 7 else 9
    ensures ws[2] == address && ws[3] == if continuous then TWO_WIRE_READ_CONTINUOUS else TWO_WIRE_READ
    ensures forall i :: 4 <= i < |ws| - 1 ==> 0 <= ws[i] < 0x80
    ensures ws[|ws| - 1] == END_SYSEX
  {
    var header := [START_SYSEX, TWO_WIRE_REQUEST, address,
                   if continuous then TWO_WIRE_READ_CONTINUOUS else TWO_WIRE_READ];
    var registerPair := if register != REGISTER_NOT_SET then TwoBytes(register) else [];
    header + registerPair + TwoBytes(bytesToRead) + [END_SYSEX]
  }

  /** `twoWireStopContinuous(slaveAddress)` */
  function TwoWireStopContinuous(address: int32): seq<int32> {
    [START_SYSEX, TWO_WIRE_REQUEST, address, TWO_WIRE_STOP_READ_CONTINUOUS, END_SYSEX]
  }

  /** The header `twoWireWrite` flushes before its payload. */
  function TwoWireWriteHeader(address: int32): seq<int32> {
    [START_SYSEX, TWO_WIRE_REQUEST, address, TWO_WIRE_WRITE]
  }

  /** `twoWireWrite(slaveAddress, bytesToWrite)`, all of it. */
  function TwoWireWrite(address: int32, data: seq<int8>): seq<int32> {
    TwoWireWriteHeader(address) + Pairs(data) + [END_SYSEX]
  }
}
