/**
 * The client's outbound encoders against its own inbound parser. The Firmata
 * board answers in the same frame formats the client sends, so a frame the
 * client writes, fed to a parser in WaitingForMessage, must come back as the
 * event carrying what was sent. Where it does not (an extended analog value
 * equal to a group threshold), the lemma says what comes back instead.
 */
module RoundTrips {
  import opened Bitwise
  import opened FirmataProtocol
  import opened Wrappers
  import opened Events
  import opened States
  import opened Machine
  import opened ParserFacts
  import opened Transport
  import opened Commands

  /** The states that only append payload bytes to their buffer until END_SYSEX. */
  predicate Appends(s: State) {
    s.ParsingFirmwareMessage? || s.ParsingExtendedAnalogMessage? || s.PinStateParsing?
    || s.ParsingStringMessage? || s.ParsingTwoWireMessage? || s.ParsingCustomSysexMessage?
  }

  predicate NoTerminator(bytes: seq<byte>) {
    forall i :: 0 <= i < |bytes| ==> bytes[i] != END_SYSEX
  }

  /** The appending state `s` with `more` added to its buffer. */
  function Appended(s: State, more: seq<byte>): State {
    match s
    case ParsingFirmwareMessage(buf) => ParsingFirmwareMessage(buf + more)
    case ParsingExtendedAnalogMessage(buf) => ParsingExtendedAnalogMessage(buf + more)
    case PinStateParsing(buf) => PinStateParsing(buf + more)
    case ParsingStringMessage(buf) => ParsingStringMessage(buf + more)
    case ParsingTwoWireMessage(buf) => ParsingTwoWireMessage(buf + more)
    case ParsingCustomSysexMessage(buf) => ParsingCustomSysexMessage(buf + more)
    case _ => s
  }

  /** A payload without END_SYSEX lands, byte for byte, in the buffer of an appending state. */
  lemma {:induction false} AppendRun(s: State, bytes: seq<byte>)
    requires Appends(s) && NoTerminator(bytes)
    ensures Run(Some(s), bytes) == Trace(Some(Appended(s, bytes)), [], true)
    decreases |bytes|
  {
    if bytes == [] {
      assert s.buf + bytes == s.buf;
    } else {
      var init, b := bytes[..|bytes| - 1], bytes[|bytes| - 1];
      assert bytes == init + [b];
      AppendRun(s, init);
      RunSnoc(Some(s), init, b);
      var t := Appended(s, init);
      assert Step(t, b) == Moved(Appended(t, [b]), []);
      assert t.buf + [b] == s.buf + bytes;
    }
  }

  /** Bytes go on the wire one write at a time. */
  lemma WireAppend(xs: seq<int32>, ys: seq<int32>)
    ensures Wire(xs + ys) == Wire(xs) + Wire(ys)
  {
  }

  /**
   * A sysex frame `F0 cmd payload F7` whose sub-command selects an appending
   * state reaches END_SYSEX in that state, holding exactly the payload.
   */
  lemma SysexFrame(cmd: byte, payload: seq<byte>)
    requires SysexTarget(cmd).Some? && Appends(SysexTarget(cmd).value) && NoTerminator(payload)
    ensures Run(Some(WaitingForMessage), [START_SYSEX, cmd] + payload + [END_SYSEX])
         == Continue(Trace(Some(Appended(SysexTarget(cmd).value, payload)), [], true), END_SYSEX)
  {
    var target := SysexTarget(cmd).value;
    WaitingDispatch(START_SYSEX);
    SysexTargets(cmd);
    RunSnoc(Some(WaitingForMessage), [], START_SYSEX);
    RunSnoc(Some(WaitingForMessage), [START_SYSEX], cmd);
    assert [START_SYSEX] + [cmd] == [START_SYSEX, cmd];
    var started := Run(Some(WaitingForMessage), [START_SYSEX, cmd]);
    assert started == Trace(Some(target), [], true);
    ResumeAppend(Trace(Some(WaitingForMessage), [], true), [START_SYSEX, cmd], payload);
    AppendRun(target, payload);
    RunSnoc(Some(WaitingForMessage), [START_SYSEX, cmd] + payload, END_SYSEX);
  }

  /** A sysex frame as the client writes it: the header, the payload values, the terminator. */
  lemma WireOfSysex(cmd: int32, payload: seq<int32>)
    requires 0 <= cmd < 0x80
    ensures Wire([START_SYSEX, cmd] + payload + [END_SYSEX]) == [START_SYSEX, cmd as byte] + Wire(payload) + [END_SYSEX]
  {
    WireAppend([START_SYSEX, cmd] + payload, [END_SYSEX]);
    WireAppend([START_SYSEX, cmd], payload);
  }

  // ---------------------------------------------------------------------------
  // Digital and short analog messages

  /** The first two groups put back together by `value or (b shl 7)`. */
  lemma SecondGroupRecombines(value: int32)
    requires 0 <= value < 0x4000
    ensures SecondGroup(Lsb7(value), Msb7(value) as byte) == value
  {
    var lo, hi := Lsb7(value), Msb7(value);
    Two7bitBytesRecombine(value);
    Pow2Values();
    var p := Pow2(7);
    assert lo + hi * p == value;
    OrDisjoint(lo, hi, 7);
  }

  /** Three bytes fed one by one. */
  lemma RunThree(c: Option<State>, x: byte, y: byte, z: byte)
    ensures Run(c, [x, y, z]) == Continue(Continue(Continue(Trace(c, [], true), x), y), z)
  {
    RunSnoc(c, [], x);
    RunSnoc(c, [x], y);
    RunSnoc(c, [x, y], z);
    assert [x] + [y] == [x, y] && [x, y] + [z] == [x, y, z];
  }

  /** The three wire bytes of a leading byte and a value's two 7-bit groups. */
  lemma ThreeByteWire(lead: int32, ws: seq<int32>, value: int32)
    requires 0 <= lead < 0x100 && |ws| == 3 && ws[0] == lead && ws[1..] == TwoBytes(value)
    ensures Wire(ws) == [lead as byte, Lsb7(value) as byte, Msb7(value) as byte]
  {
    assert ws[1] == Lsb7(value) && ws[2] == Msb7(value);
  }

  /** A digital message for port p: the eight events of the recombined value, then waiting. */
  lemma DigitalMessageRun(portId: int32, lo: byte, hi: byte)
    requires 0 <= portId < 0x10
    ensures Run(Some(WaitingForMessage), [(DIGITAL_MESSAGE + portId) as byte, lo, hi])
         == Trace(Some(WaitingForMessage), DigitalEvents(portId, SecondGroup(lo, hi)), true)
  {
    var lead: byte := DIGITAL_MESSAGE + portId;
    RunThree(Some(WaitingForMessage), lead, lo, hi);
    WaitingDispatch(lead);
    var t1 := Continue(Trace(Some(WaitingForMessage), [], true), lead);
    assert t1 == Trace(Some(ParsingDigitalMessage(portId, 0, 0)), [], true);
    var t2 := Continue(t1, lo);
    assert t2 == Trace(Some(ParsingDigitalMessage(portId, 1, lo)), [], true);
  }

  /** A short analog message for channel c: one event with the recombined value, then waiting. */
  lemma AnalogMessageRun(pin: int32, lo: byte, hi: byte)
    requires 0 <= pin < 0x10
    ensures Run(Some(WaitingForMessage), [(ANALOG_MESSAGE + pin) as byte, lo, hi])
         == Trace(Some(WaitingForMessage), [AnalogMessageEvent(pin, SecondGroup(lo, hi))], true)
  {
    var lead: byte := ANALOG_MESSAGE + pin;
    RunThree(Some(WaitingForMessage), lead, lo, hi);
    WaitingDispatch(lead);
    var t1 := Continue(Trace(Some(WaitingForMessage), [], true), lead);
    assert t1 == Trace(Some(ParsingAnalogMessage(pin, 0, 0)), [], true);
    var t2 := Continue(t1, lo);
    assert t2 == Trace(Some(ParsingAnalogMessage(pin, 1, lo)), [], true);
  }

  /**
   * `digitalWrite(port, value)` for a port number and a 14-bit value parses
   * back to the eight pin events of that port and value, and the parser is
   * waiting again.
   */
  lemma DigitalWriteRoundTrip(portId: int32, value: int32)
    requires 0 <= portId < 0x10 && 0 <= value < 0x4000
    ensures Run(Some(WaitingForMessage), Wire(DigitalWrite(portId, value)))
         == Trace(Some(WaitingForMessage), DigitalEvents(portId, value), true)
  {
    var ws := DigitalWrite(portId, value);
    DivUnique(portId, 0x10, 0, portId);
    assert ws[0] == DIGITAL_MESSAGE + portId;
    ThreeByteWire(DIGITAL_MESSAGE + portId, ws, value);
    DigitalMessageRun(portId, Lsb7(value), Msb7(value));
    SecondGroupRecombines(value);
  }

  /**
   * `analogWrite(pin, value)` for pins 0 .. 15 and a 14-bit value parses back
   * to one analog event for that pin and value.
   */
  lemma AnalogWriteShortRoundTrip(pin: int32, value: int32)
    requires 0 <= pin <= 15 && 0 <= value < 0x4000
    ensures Run(Some(WaitingForMessage), Wire(AnalogWrite(pin, value)))
         == Trace(Some(WaitingForMessage), [AnalogMessageEvent(pin, value)], true)
  {
    var ws := AnalogWrite(pin, value);
    DivUnique(pin, 0x10, 0, pin);
    assert ws == [ANALOG_MESSAGE + pin] + TwoBytes(value);
    ThreeByteWire(ANALOG_MESSAGE + pin, ws, value);
    AnalogMessageRun(pin, Lsb7(value), Msb7(value));
    SecondGroupRecombines(value);
  }

  // ---------------------------------------------------------------------------
  // Extended analog messages

  /** A value below 2^28 is the sum of its first four base-128 digits. */
  lemma FourDigits(v: int)
    requires 0 <= v < 0x1000_0000
    ensures v == v % 0x80 + 0x80 * ((v / 0x80) % 0x80) + 0x4000 * ((v / 0x4000) % 0x80)
                 + 0x20_0000 * ((v / 0x20_0000) % 0x80)
  {
    var q1 := v / 0x80;
    var q2 := q1 / 0x80;
    var q3 := q2 / 0x80;
    DivUnique(v, 0x4000, q2, v % 0x80 + 0x80 * (q1 % 0x80));
    DivUnique(v, 0x20_0000, q3, v % 0x80 + 0x80 * (q1 % 0x80) + 0x4000 * (q2 % 0x80));
    assert q3 < 0x80;
  }

  /** The groups of the extended form: the two 7-bit groups and those the thresholds add. */
  function ValueGroups(value: int32): seq<int32> {
    TwoBytes(value) + HigherGroups(value)
  }

  /** The value's base-128 digits, as many as the threshold tests send. */
  lemma ValueGroupsDigits(value: int32)
    requires 0 <= value < 0x1000_0000
    ensures var d0, d1, d2, d3 := value % 0x80, (value / 0x80) % 0x80, (value / 0x4000) % 0x80, (value / 0x20_0000) % 0x80;
      Wire(ValueGroups(value))
      == if value > 0x20_0000 then [d0, d1, d2, d3] else if value > 0x4000 then [d0, d1, d2] else [d0, d1]
  {
    Pow2Values();
    var ws := ValueGroups(value);
    assert ws[0] == value % 0x80 && ws[1] == (value / 0x80) % 0x80;
    if value > 0x4000 {
      assert ws[2] == Group7(value, 14);
    }
    if value > 0x20_0000 {
      assert ws[3] == Group7(value, 21);
    }
  }

  /** The `Groups` of a payload `[pin] + ds`: digit k of ds weighted by 2^(7 (k - 1)), from k = 1. */
  lemma PayloadGroups(pin: byte, ds: seq<byte>)
    requires 2 <= |ds| <= 4
    ensures var buf := [pin] + ds;
      Groups(buf, 2, |buf|, 1)
      == ds[1] as int * 0x80 + (if |ds| > 2 then ds[2] as int * 0x4000 else 0)
         + (if |ds| > 3 then ds[3] as int * 0x20_0000 else 0)
  {
    Pow2Values();
    var buf := [pin] + ds;
    assert Groups(buf, 2, 3, 1) == buf[2] as int * 0x80;
    if |ds| > 2 {
      assert Groups(buf, 2, 4, 1) == Groups(buf, 2, 3, 1) + buf[3] as int * Pow2(14);
    }
    if |ds| > 3 {
      assert Groups(buf, 2, 5, 1) == Groups(buf, 2, 4, 1) + buf[4] as int * Pow2(21);
    }
  }

  /** What the groups add up to, for each length the threshold tests allow. */
  lemma ValueGroupsSum(value: int32, pin: byte)
    requires 0 <= value < 0x1000_0000 && value != 0x4000 && value != 0x20_0000
    ensures var buf := [pin] + Wire(ValueGroups(value));
      3 <= |buf| <= 5 && (forall i :: 1 <= i < |buf| ==> buf[i] < 0x80)
      && buf[1] + Groups(buf, 2, |buf|, 1) == value
  {
    var ds := Wire(ValueGroups(value));
    ValueGroupsDigits(value);
    PayloadGroups(pin, ds);
    SentDigitsSum(value);
  }

  /** The digits the threshold tests keep add up to the value, once the thresholds themselves are excluded. */
  lemma SentDigitsSum(v: int)
    requires 0 <= v < 0x1000_0000 && v != 0x4000 && v != 0x20_0000
    ensures v % 0x80 < 0x80 && (v / 0x80) % 0x80 < 0x80 && (v / 0x4000) % 0x80 < 0x80 && (v / 0x20_0000) % 0x80 < 0x80
    ensures v == v % 0x80 + 0x80 * ((v / 0x80) % 0x80)
                 + (if v > 0x4000 then 0x4000 * ((v / 0x4000) % 0x80) else 0)
                 + (if v > 0x20_0000 then 0x20_0000 * ((v / 0x20_0000) % 0x80) else 0)
  {
    FourDigits(v);
    if v < 0x4000 {
      DivUnique(v, 0x4000, 0, v);
      DivUnique(v, 0x20_0000, 0, v);
    } else if v < 0x20_0000 {
      DivUnique(v, 0x20_0000, 0, v);
    }
  }

  /** An EXTENDED_ANALOG frame: one analog event for the channel byte and the groups, then waiting. */
  lemma ExtendedFrame(payload: seq<byte>)
    requires 2 <= |payload| && NoTerminator(payload)
    ensures Run(Some(WaitingForMessage), [START_SYSEX, EXTENDED_ANALOG as byte] + payload + [END_SYSEX])
         == Trace(Some(WaitingForMessage), [AnalogMessageEvent(SignedByte(payload[0]), ExtendedAnalogValue(payload))], true)
  {
    SysexFrame(EXTENDED_ANALOG as byte, payload);
    assert Appended(ParsingExtendedAnalogMessage([]), payload) == ParsingExtendedAnalogMessage(payload) by {
      assert [] + payload == payload;
    }
    assert Padded(payload, 1) == payload;
  }

  /** The wire bytes of `analogWrite` for a pin above 15. */
  lemma ExtendedWire(pin: int32, value: int32)
    requires 16 <= pin < 0x80
    ensures Wire(AnalogWrite(pin, value))
         == [START_SYSEX, EXTENDED_ANALOG as byte] + ([pin as byte] + Wire(ValueGroups(value))) + [END_SYSEX]
  {
    var a, p, t, h := [START_SYSEX, EXTENDED_ANALOG], [pin], TwoBytes(value), HigherGroups(value);
    assert [START_SYSEX, EXTENDED_ANALOG, pin] == a + p;
    ConcatAssociates(a + p, t, h);
    ConcatAssociates(a, p, t + h);
    assert AnalogWrite(pin, value) == [START_SYSEX, EXTENDED_ANALOG] + (p + ValueGroups(value)) + [END_SYSEX];
    WireOfSysex(EXTENDED_ANALOG, p + ValueGroups(value));
    WireAppend(p, ValueGroups(value));
    assert Wire(p) == [pin as byte];
  }

  /**
   * `analogWrite(pin, value)` for a pin in 16 .. 127 parses back to the analog
   * event for that pin and value, for every value below 2^28 except the two
   * thresholds 0x4000 and 0x200000.
   */
  lemma AnalogWriteExtendedRoundTrip(pin: int32, value: int32)
    requires 16 <= pin < 0x80 && 0 <= value < 0x1000_0000 && value != 0x4000 && value != 0x20_0000
    ensures Run(Some(WaitingForMessage), Wire(AnalogWrite(pin, value)))
         == Trace(Some(WaitingForMessage), [AnalogMessageEvent(pin, value)], true)
  {
    var payload := [pin as byte] + Wire(ValueGroups(value));
    ValueGroupsSum(value, pin as byte);
    ExtendedWire(pin, value);
    ExtendedFrame(payload);
    ExtendedAnalogValueIsBase128(payload);
  }

  /** At the threshold 0x4000 both groups are zero and no third one is sent. */
  lemma ThresholdGroups(value: int32)
    requires value == 0x4000
    ensures Wire(ValueGroups(value)) == [0, 0]
  {
    ValueGroupsDigits(value);
    DivUnique(value, 0x80, 0x80, 0);
    var q := value / 0x80;
    DivUnique(q, 0x80, 1, 0);
  }

  /**
   * The threshold 0x4000 itself is sent as the groups 00 00 without a third
   * one (the test is `value > 0x4000`), so it parses back as 0.
   */
  lemma AnalogWriteThresholdReadsZero(pin: int32, value: int32)
    requires 16 <= pin < 0x80 && value == 0x4000
    ensures Run(Some(WaitingForMessage), Wire(AnalogWrite(pin, value)))
         == Trace(Some(WaitingForMessage), [AnalogMessageEvent(pin, 0)], true)
  {
    var payload: seq<byte> := [pin as byte, 0, 0];
    assert Wire(AnalogWrite(pin, value))
        == [START_SYSEX, EXTENDED_ANALOG as byte] + payload + [END_SYSEX] by {
      ThresholdGroups(value);
      ExtendedWire(pin, value);
      assert [pin as byte] + [0, 0] == payload;
    }
    ZeroGroupsFrame(pin as byte);
  }

  /** A channel byte followed by two zero groups is read as the value 0 on that channel. */
  lemma ZeroGroupsFrame(channel: byte)
    requires channel < 0x80
    ensures Run(Some(WaitingForMessage), [START_SYSEX, EXTENDED_ANALOG as byte] + [channel, 0, 0] + [END_SYSEX])
         == Trace(Some(WaitingForMessage), [AnalogMessageEvent(channel, 0)], true)
  {
    var payload := [channel, 0, 0];
    ExtendedFrame(payload);
    assert ExtendedAnalogValue(payload) == 0 by {
      ExtendedAnalogValueIsBase128(payload);
      PayloadGroups(channel, [0, 0]);
      assert [channel] + [0, 0] == payload;
    }
  }

  // ---------------------------------------------------------------------------
  // Text

  predicate IsAscii(message: string) {
    forall i :: 0 <= i < |message| ==> (message[i] as int) < 0x80
  }

  /** `decode7Bit` reads an ASCII character back from the pair `text` wrote for it. */
  lemma AsciiPairDecodes(c: int8, buf: seq<byte>, k: nat)
    requires 0 <= c < 0x80 && 2 * k + 1 < |buf| && buf[2 * k] == Lsb7(c) && buf[2 * k + 1] == Msb7(c)
    ensures Decode7Bit(buf, 2 * k) == c
  {
    Two7bitBytesRecombine(c);
  }

  /** A STRING_DATA frame whose payload decodes: one string event, then waiting. */
  lemma StringFrame(payload: seq<byte>, message: string)
    requires NoTerminator(payload) && DecodeString(payload, 0, |payload|) == Some(message)
    ensures Run(Some(WaitingForMessage), [START_SYSEX, STRING_DATA as byte] + payload + [END_SYSEX])
         == Trace(Some(WaitingForMessage), [StringMessageEvent(message)], true)
  {
    SysexFrame(STRING_DATA as byte, payload);
    assert Appended(ParsingStringMessage([]), payload) == ParsingStringMessage(payload) by {
      assert [] + payload == payload;
    }
  }

  /** The pairs `text` writes for an ASCII message decode to the message. */
  lemma AsciiPairsDecode(message: string)
    requires IsAscii(message)
    ensures var payload := Wire(Pairs(Ascii(message)));
      NoTerminator(payload) && DecodeString(payload, 0, |payload|) == Some(message)
  {
    var payload := Wire(Pairs(Ascii(message)));
    assert Quot(|payload|, 2) == |message| by {
      DivUnique(|payload|, 2, |message|, 0);
    }
    var decoded := DecodeString(payload, 0, |payload|).value;
    forall k | 0 <= k < |message|
      ensures decoded[k] == message[k]
    {
      AsciiPairAt(message, k);
    }
    assert decoded == message;
    PairsNoTerminator(message);
  }

  /** Character k of an ASCII message is the k-th pair of its payload. */
  lemma AsciiPairAt(message: string, k: nat)
    requires IsAscii(message) && k < |message|
    ensures var payload := Wire(Pairs(Ascii(message)));
      2 * k + 1 < |payload| && Decode7Bit(payload, 2 * k) as char == message[k]
  {
    var payload := Wire(Pairs(Ascii(message)));
    var pairs := Pairs(Ascii(message));
    var c := Ascii(message)[k];
    assert c == message[k] as int;
    assert pairs[2 * k] == Lsb7(c) && pairs[2 * k + 1] == Msb7(c);
    assert payload[2 * k] == Lsb7(c) && payload[2 * k + 1] == Msb7(c);
    AsciiPairDecodes(c, payload, k);
  }

  /** The pairs of an ASCII message are all below 0x80, so none of them ends the frame. */
  lemma PairsNoTerminator(message: string)
    requires IsAscii(message)
    ensures NoTerminator(Wire(Pairs(Ascii(message))))
  {
    var payload := Wire(Pairs(Ascii(message)));
    forall i | 0 <= i < |payload|
      ensures payload[i] != END_SYSEX
    {
      assert Pairs(Ascii(message))[i] < 0x80;
    }
  }

  /** `text(message)` for an ASCII message parses back to a string event with the same message. */
  lemma TextRoundTrip(message: string)
    requires IsAscii(message)
    ensures Run(Some(WaitingForMessage), Wire(Text(message)))
         == Trace(Some(WaitingForMessage), [StringMessageEvent(message)], true)
  {
    var pairs := Pairs(Ascii(message));
    WireOfSysex(STRING_DATA, pairs);
    AsciiPairsDecode(message);
    StringFrame(Wire(pairs), message);
  }
}
