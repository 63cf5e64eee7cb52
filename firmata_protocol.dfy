/**
 * The Firmata wire constants and the 7-bit decoding helper (FirmataProtocol.kt).
 *
 * Bytes travel as JVM `Byte`s; in this model a byte is its unsigned value
 * 0..255 and `Byte.toInt()`, which sign-extends, is `SignedByte`.
 */
module FirmataProtocol {
  import opened Bitwise

  /** A JVM `Byte`, held as its unsigned value. */
  type byte = x: int | 0 <= x < 0x100

  // Message commands.
  const DIGITAL_MESSAGE: int32 := 0x90
  const ANALOG_MESSAGE: int32 := 0xE0
  const REPORT_ANALOG: int32 := 0xC0
  const REPORT_DIGITAL: int32 := 0xD0
  const SET_PIN_MODE: int32 := 0xF4
  const SET_DIGITAL_PIN_VALUE: int32 := 0xF5
  const REPORT_VERSION: int32 := 0xF9
  const SYSTEM_RESET: int32 := 0xFF
  const START_SYSEX: int32 := 0xF0
  const END_SYSEX: int32 := 0xF7

  // Sysex sub-commands.
  const RESERVED_COMMAND: int32 := 0x00
  const SERIAL_MESSAGE: int32 := 0x60
  const ENCODER_DATA: int32 := 0x61
  const SERVO_CONFIG: int32 := 0x70
  const STRING_DATA: int32 := 0x71
  const STEPPER_DATA: int32 := 0x72
  const ONE_WIRE_DATA: int32 := 0x73
  const SHIFT_DATA: int32 := 0x75
  const TWO_WIRE_REQUEST: int32 := 0x76
  const TWO_WIRE_REPLY: int32 := 0x77
  const TWO_WIRE_CONFIG: int32 := 0x78
  const EXTENDED_ANALOG: int32 := 0x6F
  const PIN_STATE_QUERY: int32 := 0x6D
  const PIN_STATE_RESPONSE: int32 := 0x6E
  const CAPABILITY_QUERY: int32 := 0x6B
  const CAPABILITY_RESPONSE: int32 := 0x6C
  const ANALOG_MAPPING_QUERY: int32 := 0x69
  const ANALOG_MAPPING_RESPONSE: int32 := 0x6A
  const REPORT_FIRMWARE: int32 := 0x79
  const SAMPLING_INTERVAL: int32 := 0x7A
  const SCHEDULER_DATA: int32 := 0x7B
  const SYSEX_NON_REALTIME: int32 := 0x7E
  const SYSEX_REALTIME: int32 := 0x7F

  // Pin modes as sent on the wire.
  const PIN_MODE_INPUT: int32 := 0x00
  const PIN_MODE_OUTPUT: int32 := 0x01
  const PIN_MODE_ANALOG: int32 := 0x02
  const PIN_MODE_PWM: int32 := 0x03
  const PIN_MODE_SERVO: int32 := 0x04
  const PIN_MODE_SHIFT: int32 := 0x05
  const PIN_MODE_TWO_WIRE: int32 := 0x06
  const PIN_MODE_ONEWIRE: int32 := 0x07
  const PIN_MODE_STEPPER: int32 := 0x08
  const PIN_MODE_ENCODER: int32 := 0x09
  const PIN_MODE_SERIAL: int32 := 0x0A
  const PIN_MODE_PULLUP: int32 := 0x0B
  const PIN_MODE_IGNORE: int32 := 0x7F
  const TOTAL_PIN_MODES: int32 := 13

  // Two-wire (I2C) request modes.
  const TWO_WIRE_WRITE: int32 := 0x00
  const TWO_WIRE_READ: int32 := 0x08
  const TWO_WIRE_READ_CONTINUOUS: int32 := 0x10
  const TWO_WIRE_STOP_READ_CONTINUOUS: int32 := 0x18

  const MIN_SAMPLING_INTERVAL: int32 := 10
  const MAX_SAMPLING_INTERVAL: int32 := 100

  /** The message commands a board may start a frame with. */
  const MessageCommands: seq<int32> :=
    [DIGITAL_MESSAGE, ANALOG_MESSAGE, REPORT_ANALOG, REPORT_DIGITAL, SET_PIN_MODE,
     SET_DIGITAL_PIN_VALUE, REPORT_VERSION, SYSTEM_RESET, START_SYSEX, END_SYSEX]

  /** The sysex sub-commands. */
  const SysexCommands: seq<int32> :=
    [RESERVED_COMMAND, SERIAL_MESSAGE, ENCODER_DATA, SERVO_CONFIG, STRING_DATA, STEPPER_DATA,
     ONE_WIRE_DATA, SHIFT_DATA, TWO_WIRE_REQUEST, TWO_WIRE_REPLY, TWO_WIRE_CONFIG,
     EXTENDED_ANALOG, PIN_STATE_QUERY, PIN_STATE_RESPONSE, CAPABILITY_QUERY,
     CAPABILITY_RESPONSE, ANALOG_MAPPING_QUERY, ANALOG_MAPPING_RESPONSE, REPORT_FIRMWARE,
     SAMPLING_INTERVAL, SCHEDULER_DATA, SYSEX_NON_REALTIME, SYSEX_REALTIME]

  /** `Byte.toInt()`: the byte's value with bit 7 read as the sign. */
  function SignedByte(b: byte): (r: int32)
    ensures -0x80 <= r < 0x80
    ensures r % 0x100 == b
  {
    if b < 0x80 then b else b - 0x100
  }

  /**
   * `decode7Bit(data, offset)`: the low seven bits of `data[offset]`, with bit 0
   * of `data[offset + 1]` as bit 7. Every other bit of the second byte is dropped,
   * so the result is a single byte. The body is the arithmetic reading of the
   * source's mask-and-shift expression; `Decode7BitIsBitExpression` proves the two equal.
   */
  function Decode7Bit(data: seq<byte>, offset: nat): (r: int32)
    requires offset + 1 < |data|
    ensures 0 <= r < 0x100
  {
    data[offset] as int % 0x80 + 0x80 * (data[offset + 1] as int % 2)
  }

  /** `Decode7Bit` agrees with `(data[offset + 1].toInt() and 0x01 shl 7) or (data[offset].toInt() and 0x7F)`. */
  lemma Decode7BitIsBitExpression(data: seq<byte>, offset: nat)
    requires offset + 1 < |data|
    ensures Decode7Bit(data, offset)
         == Or(Shl(And(SignedByte(data[offset + 1]), 0x01), 7), And(SignedByte(data[offset]), 0x7F))
  {
    var lo, hi := data[offset], data[offset + 1];
    MaskSignedByte(hi, 0x01, 1);
    MaskSignedByte(lo, 0x7F, 7);
    OrHighBit(lo as int % 0x80, hi as int % 2);
  }

  /** Masking the sign-extended byte with 2^k - 1 sees only the byte itself (k is 1 or 7). */
  lemma MaskSignedByte(b: byte, m: int32, k: nat)
    requires (k == 1 || k == 7) && m == Pow2(k) - 1
    ensures And(SignedByte(b), m) == b as int % Pow2(k)
  {
    Pow2Values();
    AndLowMask(SignedByte(b), m, k);
    if k == 1 {
      SignedByteMod(b, 2);
    } else {
      SignedByteMod(b, 0x80);
    }
  }

  /** Sign extension does not change the residue modulo a divisor `p` of 256. */
  lemma SignedByteMod(b: byte, p: int)
    requires p == 2 || p == 0x80
    ensures SignedByte(b) % p == b as int % p
  {
    if b >= 0x80 {
      ModAddMultiple(b as int, p, -(0x100 / p));
    }
  }

  /** Placing bit `h` above seven low bits `l`. */
  lemma OrHighBit(l: int32, h: int32)
    requires 0 <= l < 0x80 && 0 <= h <= 1
    ensures Or(Shl(h, 7), l) == l + 0x80 * h
  {
    Pow2Values();
    OrDisjoint(l, h, 7);
    OrCommutes(l, Shl(h, 7));
  }

  /** Every message command has bit 7 set; every sysex sub-command has it clear. */
  lemma CommandsAreMarked()
    ensures forall i :: 0 <= i < |MessageCommands| ==> 0x80 <= MessageCommands[i] <= 0xFF
    ensures forall i :: 0 <= i < |SysexCommands| ==> 0 <= SysexCommands[i] <= 0x7F
  {
  }

  /** The two-wire request modes are pairwise distinct. */
  lemma TwoWireModesDistinct()
    ensures [TWO_WIRE_WRITE, TWO_WIRE_READ, TWO_WIRE_READ_CONTINUOUS, TWO_WIRE_STOP_READ_CONTINUOUS]
         == [0x00, 0x08, 0x10, 0x18]
    ensures TWO_WIRE_WRITE != TWO_WIRE_READ && TWO_WIRE_WRITE != TWO_WIRE_READ_CONTINUOUS
    ensures TWO_WIRE_WRITE != TWO_WIRE_STOP_READ_CONTINUOUS && TWO_WIRE_READ != TWO_WIRE_READ_CONTINUOUS
    ensures TWO_WIRE_READ != TWO_WIRE_STOP_READ_CONTINUOUS
    ensures TWO_WIRE_READ_CONTINUOUS != TWO_WIRE_STOP_READ_CONTINUOUS
  {
  }

  /** The sampling-interval bounds form a non-empty range. */
  lemma SamplingBoundsOrdered()
    ensures MIN_SAMPLING_INTERVAL <= MAX_SAMPLING_INTERVAL
  {
  }

  /** Decoding keeps only bit 0 of the second byte: 14-bit values do not survive. */
  lemma Decode7BitDropsHighBits(data: seq<byte>, offset: nat)
    requires offset + 1 < |data| && data[offset] < 0x80 && data[offset + 1] < 0x80
    ensures Decode7Bit(data, offset) == (data[offset] as int + 0x80 * data[offset + 1] as int) % 0x100
  {
    var d0, d1 := data[offset] as int, data[offset + 1] as int;
    var r := Decode7Bit(data, offset);
    assert r == d0 + 0x80 * (d1 % 2);
    DivUnique(d0 + 0x80 * d1, 0x100, d1 / 2, d0 + 0x80 * (d1 % 2));
  }
}
