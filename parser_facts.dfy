/**
 * What the frame parser promises about the bytes it is fed: where the leading
 * byte sends it, what each sysex sub-command selects, how a run of capability
 * or analog-mapping bytes numbers its pins, and what the multi-byte values add up to.
 */
module ParserFacts {
  import opened Bitwise
  import opened FirmataProtocol
  import opened Wrappers
  import opened PinModes
  import opened Events
  import opened States
  import opened Machine

  // ---------------------------------------------------------------------------
  // WaitingForMessageState

  /**
   * The leading byte decides the next state: a digital or analog message carries
   * its port in the low nibble, and every byte without a message of its own,
   * data bytes included, is reported as an error under its dispatch key.
   */
  lemma WaitingDispatch(b: byte)
    ensures 0x90 <= b < 0xA0 ==> WaitingStep(b) == Moved(ParsingDigitalMessage(b - 0x90, 0, 0), [])
    ensures 0xE0 <= b < 0xF0 ==> WaitingStep(b) == Moved(ParsingAnalogMessage(b - 0xE0, 0, 0), [])
    ensures b == 0xF9 ==> WaitingStep(b) == Moved(ParsingVersionMessage(0, 0), [])
    ensures b == 0xF0 ==> WaitingStep(b) == Moved(ParsingSysexMessage, [])
    ensures b == 0xFF ==> WaitingStep(b) == Moved(WaitingForMessage, [SystemResetEvent])
    ensures !(0x90 <= b < 0xA0 || 0xE0 <= b < 0xF0 || b == 0xF0 || b == 0xF9 || b == 0xFF)
         ==> WaitingStep(b) == Moved(WaitingForMessage, [ErrorEvent(DispatchKey(b))])
    ensures b < 0x80 ==> WaitingStep(b) == Moved(WaitingForMessage, [ErrorEvent(b / 0x10 * 0x10)])
  {
    if b < 0xF0 {
      HighNibbleKey(b);
    }
  }

  /** Below 0xF0 the key is the high nibble, so it names a message exactly on that nibble's sixteen bytes. */
  lemma HighNibbleKey(b: byte)
    requires b < 0xF0
    ensures DispatchKey(b) == b / 0x10 * 0x10
    ensures DispatchKey(b) == DIGITAL_MESSAGE <==> 0x90 <= b < 0xA0
    ensures DispatchKey(b) == ANALOG_MESSAGE <==> 0xE0 <= b < 0xF0
    ensures DispatchKey(b) != REPORT_VERSION && DispatchKey(b) != START_SYSEX && DispatchKey(b) != SYSTEM_RESET
    ensures 0x90 <= b < 0xA0 ==> LowNibble(b) == b - 0x90
    ensures 0xE0 <= b < 0xF0 ==> LowNibble(b) == b - 0xE0
  {
    NibbleArithmetic(b);
  }

  /** The nibbles of a byte, as plain arithmetic. */
  lemma NibbleArithmetic(b: int)
    requires 0 <= b < 0xF0
    ensures b / 0x10 * 0x10 == 0x90 <==> 0x90 <= b < 0xA0
    ensures b / 0x10 * 0x10 == 0xE0 <==> 0xE0 <= b < 0xF0
    ensures b / 0x10 * 0x10 < 0xF0
    ensures 0x90 <= b < 0xA0 ==> b % 0x10 == b - 0x90
    ensures 0xE0 <= b < 0xF0 ==> b % 0x10 == b - 0xE0
  {
    var q, r := b / 0x10, b % 0x10;
    assert b == 0x10 * q + r && 0 <= r < 0x10;
  }

  // ---------------------------------------------------------------------------
  // ParsingSysexMessageState

  /** Exactly seven sub-commands have a state of their own, and each selected state starts empty. */
  lemma SysexTargets(b: byte)
    ensures SysexTarget(b).Some? <==> b in {0x79, 0x6F, 0x6C, 0x6A, 0x6E, 0x71, 0x77}
    ensures SysexTarget(b).Some? ==> Fresh(SysexTarget(b).value) && SysexStep(b) == Moved(SysexTarget(b).value, [])
  {
  }

  /** Any other sub-command byte opens a custom message that already holds it, except END_SYSEX. */
  lemma SysexFallback(b: byte)
    requires SysexTarget(b).None?
    ensures b != END_SYSEX ==> SysexStep(b) == Moved(ParsingCustomSysexMessage([b]), [])
    ensures b == END_SYSEX ==> SysexStep(b) == Moved(ParsingCustomSysexMessage([]), [CustomMessageEvent([])])
  {
  }

  // ---------------------------------------------------------------------------
  // The terminator

  /** A state that buffers its payload until END_SYSEX. */
  predicate Buffering(s: State) {
    s.ParsingFirmwareMessage? || s.ParsingExtendedAnalogMessage? || s.ParsingCapabilityResponse?
    || s.ParsingAnalogMapping? || s.PinStateParsing? || s.ParsingStringMessage?
    || s.ParsingTwoWireMessage? || s.ParsingCustomSysexMessage?
  }

  /**
   * END_SYSEX ends every buffering state with exactly one event and a return to
   * waiting, unless the decode throws; a string message, whose character count
   * is half a buffer length, never throws.
   */
  lemma EndSysexReturnsToWaiting(s: State)
    requires Buffering(s)
    ensures Step(s, END_SYSEX).Moved? ==> Step(s, END_SYSEX).next == WaitingForMessage && |Step(s, END_SYSEX).events| == 1
    ensures Step(s, END_SYSEX).Thrown? ==> s.PinStateParsing? || s.ParsingFirmwareMessage? || s.ParsingTwoWireMessage?
  {
  }

  /**
   * Before the terminator, a buffering state publishes nothing (but for a
   * capability section's 0x7F) and stays of its kind; the custom and capability
   * states append the byte, and the analog-mapping state maps it to the next
   * pin number instead (0x7F, no analog channel, maps nothing).
   */
  lemma PayloadBytesPublishNothing(s: State, b: byte)
    requires Buffering(s) && b != END_SYSEX && !(s.ParsingCapabilityResponse? && b == 0x7F)
    ensures Step(s, b).Moved? && Step(s, b).events == [] && Buffering(Step(s, b).next)
    ensures s.ParsingCustomSysexMessage? ==> Step(s, b).next == ParsingCustomSysexMessage(s.buf + [b])
    ensures s.ParsingCapabilityResponse? ==> Step(s, b).next == ParsingCapabilityResponse(s.pin, s.buf + [b])
    ensures s.ParsingAnalogMapping? ==>
              Step(s, b).next == ParsingAnalogMapping(if b != 0x7F then s.mapping[b := s.portId] else s.mapping, Wrap(s.portId + 1))
  {
  }

  // ---------------------------------------------------------------------------
  // Concrete frames

  /** Feeding one more byte continues the run by one step. */
  lemma RunSnoc(c: Option<State>, xs: seq<byte>, b: byte)
    ensures Run(c, xs + [b]) == Continue(Run(c, xs), b)
  {
    assert (xs + [b])[..|xs|] == xs;
  }

  /** Port 0 with pattern 1: pin 0 reads 1, pins 1 to 7 read 0. */
  lemma PortZeroPatternOne()
    ensures DigitalEvents(0, 1)
         == [DigitalMessageEvent(0, 1), DigitalMessageEvent(1, 0), DigitalMessageEvent(2, 0),
             DigitalMessageEvent(3, 0), DigitalMessageEvent(4, 0), DigitalMessageEvent(5, 0),
             DigitalMessageEvent(6, 0), DigitalMessageEvent(7, 0)]
  {
    var es := DigitalEvents(0, 1);
    var expected := [DigitalMessageEvent(0, 1), DigitalMessageEvent(1, 0), DigitalMessageEvent(2, 0),
                     DigitalMessageEvent(3, 0), DigitalMessageEvent(4, 0), DigitalMessageEvent(5, 0),
                     DigitalMessageEvent(6, 0), DigitalMessageEvent(7, 0)];
    forall i | 0 <= i < 8
      ensures es[i] == expected[i]
    {
      HigherBitsOfOne(i);
    }
  }

  /** Bit i of the pattern 1. */
  lemma HigherBitsOfOne(i: nat)
    requires i < 8
    ensures PatternBit(1, i) == if i == 0 then 1 else 0
  {
    if i > 0 {
      var p := Pow2(i);
      Pow2Monotone(1, i);
      assert Pow2(1) == 2;
      DivUnique(1, p, 0, 1);
    }
  }

  /** `90 01 00`: pin 0 reads 1, pins 1 to 7 read 0, and the parser is waiting again. */
  lemma DigitalFrameExample()
    ensures Run(Some(WaitingForMessage), [0x90, 0x01, 0x00])
         == Trace(Some(WaitingForMessage),
                  [DigitalMessageEvent(0, 1), DigitalMessageEvent(1, 0), DigitalMessageEvent(2, 0),
                   DigitalMessageEvent(3, 0), DigitalMessageEvent(4, 0), DigitalMessageEvent(5, 0),
                   DigitalMessageEvent(6, 0), DigitalMessageEvent(7, 0)], true)
  {
    var c := Some(WaitingForMessage);
    RunSnoc(c, [], 0x90);
    assert [] + [0x90] == [0x90];
    WaitingDispatch(0x90);
    assert Run(c, [0x90]) == Trace(Some(ParsingDigitalMessage(0, 0, 0)), [], true);
    RunSnoc(c, [0x90], 0x01);
    assert [0x90] + [0x01] == [0x90, 0x01];
    assert Run(c, [0x90, 0x01]) == Trace(Some(ParsingDigitalMessage(0, 1, 1)), [], true);
    RunSnoc(c, [0x90, 0x01], 0x00);
    assert [0x90, 0x01] + [0x00] == [0x90, 0x01, 0x00];
    assert SecondGroup(1, 0) == 1 by {
      assert Shl(0, 7) == 0;
      OrZero(1);
      OrCommutes(0, 1);
    }
    PortZeroPatternOne();
  }

  /** `F0 6C 00 01`: a capability response whose first section holds the pair `00 01`. */
  lemma CapabilityFramePrefix()
    ensures Run(Some(WaitingForMessage), [0xF0, 0x6C, 0x00, 0x01])
         == Trace(Some(ParsingCapabilityResponse(0, [0x00, 0x01])), [], true)
  {
    var opening, section: seq<byte> := [0xF0, 0x6C], [0x00, 0x01];
    ResumeAppend(Trace(Some(WaitingForMessage), [], true), opening, section);
    assert opening + section == [0xF0, 0x6C, 0x00, 0x01];
    CapabilityFrameOpen();
    assert Resume(Trace(Some(ParsingCapabilityResponse(0, [])), [], true), section)
        == Trace(Some(ParsingCapabilityResponse(0, [0x00, 0x01])), [], true) by {
      assert section[..1] == [0x00] && [0x00][..0] == [];
      assert [] + [0x00] == [0x00] && [0x00] + [0x01] == [0x00, 0x01];
    }
  }

  /** `F0 6C` opens a capability response at pin 0. */
  lemma CapabilityFrameOpen()
    ensures Run(Some(WaitingForMessage), [0xF0, 0x6C]) == Trace(Some(ParsingCapabilityResponse(0, [])), [], true)
  {
    WaitingDispatch(0xF0);
    assert [0xF0, 0x6C][..1] == [0xF0] && [0xF0][..0] == [];
  }

  /** `F0 6C 00 01 7F F7`: one pin, pin 0, supporting INPUT; then the end of the list and waiting. */
  lemma CapabilityFrameExample()
    ensures Run(Some(WaitingForMessage), [0xF0, 0x6C, 0x00, 0x01, 0x7F, 0xF7])
         == Trace(Some(WaitingForMessage),
                  [PinCapabilityResponseEvent(0, {Input}), PinCapabilitiesFinishedEvent], true)
  {
    var prefix, rest: seq<byte> := [0xF0, 0x6C, 0x00, 0x01], [0x7F, 0xF7];
    ResumeAppend(Trace(Some(WaitingForMessage), [], true), prefix, rest);
    assert prefix + rest == [0xF0, 0x6C, 0x00, 0x01, 0x7F, 0xF7];
    CapabilityFramePrefix();
    CapabilityFrameClose();
  }

  /** After the section `00 01`, the bytes `7F F7` publish pin 0's INPUT response and the end of the list. */
  lemma CapabilityFrameClose()
    ensures Resume(Trace(Some(ParsingCapabilityResponse(0, [0x00, 0x01])), [], true), [0x7F, 0xF7])
         == Trace(Some(WaitingForMessage),
                  [PinCapabilityResponseEvent(0, {Input}), PinCapabilitiesFinishedEvent], true)
  {
    InputOnlySection();
    assert [0x7F, 0xF7][..1] == [0x7F] && [0x7F][..0] == [];
  }

  /** The section `00 01` lists INPUT alone. */
  lemma InputOnlySection()
    ensures CapabilityModes([0x00, 0x01]) == Some({Input})
  {
    assert ModesBelow([0x00, 0x01], 0) == Some({});
    assert Resolve(SignedByte(0x00)) == Some(Input);
    assert {} + {Input} == {Input};
  }

  /** `F0 F7`: an empty custom message is published, and the machine is left in the custom state, not waiting. */
  lemma EmptySysexExample()
    ensures Run(Some(WaitingForMessage), [0xF0, 0xF7])
         == Trace(Some(ParsingCustomSysexMessage([])), [CustomMessageEvent([])], true)
  {
    assert [0xF0, 0xF7][..1] == [0xF0] && [0xF0][..0] == [];
  }

  // ---------------------------------------------------------------------------
  // ParsingCapabilityResponseState over a run of bytes

  /** How often `x` occurs in `bytes`. */
  function Occurrences(bytes: seq<byte>, x: byte): (n: nat)
    ensures n <= |bytes|
    decreases |bytes|
  {
    if bytes == [] then 0
    else Occurrences(bytes[..|bytes| - 1], x) + (if bytes[|bytes| - 1] == x then 1 else 0)
  }

  /** Truncation to 32 bits sees only the residue modulo 2^32. */
  lemma WrapStep(x: int, k: int)
    ensures Wrap(Wrap(x) + k) == Wrap(x + k)
  {
    var r := Wrap(x);
    assert (r - x) % TWO_32 == 0;
    var q := (r - x) / TWO_32;
    assert r + k == (x + k) + q * TWO_32;
    ModAddMultiple(x + k, TWO_32, q);
  }

  /**
   * Fed a run of bytes without END_SYSEX, the capability state numbers its
   * sections consecutively from the pin it started at: one event per 0x7F,
   * each for the next pin, and it ends in a capability state for the pin after
   * the last event's (an exception in `resolve` stops the run early).
   */
  lemma {:induction false} CapabilitySections(pin: int32, buf: seq<byte>, bytes: seq<byte>)
    requires forall i :: 0 <= i < |bytes| ==> bytes[i] != END_SYSEX
    ensures Sections(pin, Occurrences(bytes, 0x7F), Run(Some(ParsingCapabilityResponse(pin, buf)), bytes))
    decreases |bytes|
  {
    if bytes != [] {
      var init := bytes[..|bytes| - 1];
      CapabilitySections(pin, buf, init);
      SectionsStep(pin, buf, init, bytes[|bytes| - 1]);
      assert init + [bytes[|bytes| - 1]] == bytes;
    }
  }

  /**
   * The shape of a run over capability bytes from pin `pin`: still collecting,
   * at `pin` plus the number of responses, each response for the next pin,
   * and `sections` responses when nothing threw.
   */
  ghost predicate Sections(pin: int32, sections: nat, t: Trace) {
    t.last.Some? && t.last.value.ParsingCapabilityResponse?
    && t.last.value.pin == Wrap(pin + |t.events|)
    && (forall k :: 0 <= k < |t.events| ==>
          t.events[k].PinCapabilityResponseEvent? && t.events[k].pin == Wrap(pin + k))
    && (t.ok ==> |t.events| == sections)
  }

  /** One more byte that does not end the frame keeps the shape. */
  lemma SectionsStep(pin: int32, buf: seq<byte>, init: seq<byte>, b: byte)
    requires b != END_SYSEX
    requires Sections(pin, Occurrences(init, 0x7F), Run(Some(ParsingCapabilityResponse(pin, buf)), init))
    ensures Sections(pin, Occurrences(init + [b], 0x7F), Run(Some(ParsingCapabilityResponse(pin, buf)), init + [b]))
  {
    var t := Run(Some(ParsingCapabilityResponse(pin, buf)), init);
    assert Run(Some(ParsingCapabilityResponse(pin, buf)), init + [b]) == Continue(t, b) by {
      assert (init + [b])[..|init|] == init;
    }
    assert Occurrences(init + [b], 0x7F) == Occurrences(init, 0x7F) + (if b == 0x7F then 1 else 0) by {
      assert (init + [b])[..|init|] == init;
    }
    SectionsContinue(pin, Occurrences(init, 0x7F), t, b);
  }

  /** The shape on a trace, one byte further. */
  lemma SectionsContinue(pin: int32, sections: nat, t: Trace, b: byte)
    requires b != END_SYSEX
    requires Sections(pin, sections, t)
    ensures Sections(pin, sections + (if b == 0x7F then 1 else 0), Continue(t, b))
  {
    var s := t.last.value;
    if !t.ok {
    } else if b == 0x7F {
      match CapabilityModes(s.buf)
      case None =>
      case Some(modes) =>
        assert Continue(t, b) == Trace(Some(ParsingCapabilityResponse(Wrap(s.pin + 1), [])),
                                       t.events + [PinCapabilityResponseEvent(s.pin, modes)], true);
        SectionsResponse(pin, sections, t, modes);
    } else {
      assert Continue(t, b) == Trace(Some(ParsingCapabilityResponse(s.pin, s.buf + [b])), t.events, true);
    }
  }

  /** A completed section publishes the current pin's response and moves to the next pin. */
  lemma SectionsResponse(pin: int32, sections: nat, t: Trace, modes: set<PinMode>)
    requires t.ok && Sections(pin, sections, t)
    ensures
      var s := t.last.value;
      Sections(pin, sections + 1, Trace(Some(ParsingCapabilityResponse(Wrap(s.pin + 1), [])),
                                        t.events + [PinCapabilityResponseEvent(s.pin, modes)], true))
  {
    WrapStep(pin + |t.events|, 1);
  }

  // ---------------------------------------------------------------------------
  // ParsingAnalogMappingState over a run of bytes

  /**
   * The mapping after payload bytes `bytes`: each byte other than 0x7F is a
   * channel mapped to the index of its last occurrence.
   */
  predicate MapsLastOccurrence(mapping: map<int32, int32>, bytes: seq<byte>) {
    (forall k :: k in mapping ==>
       0 <= mapping[k] < |bytes| && bytes[mapping[k]] == k && k != 0x7F
       && (forall j :: mapping[k] < j < |bytes| ==> bytes[j] != k))
    && (forall i :: 0 <= i < |bytes| && bytes[i] != 0x7F ==> bytes[i] as int32 in mapping)
  }

  /**
   * From a fresh analog-mapping state, payload bytes publish nothing, advance
   * the pin index once each, and build the mapping from each channel to the
   * last pin index that named it; every mapped index is below the number of
   * bytes seen.
   */
  lemma {:induction false} AnalogMappingRun(bytes: seq<byte>)
    requires |bytes| < TWO_31
    requires forall i :: 0 <= i < |bytes| ==> bytes[i] != END_SYSEX
    ensures Mapped(bytes, Run(Some(ParsingAnalogMapping(map[], 0)), bytes))
    decreases |bytes|
  {
    if bytes != [] {
      var init := bytes[..|bytes| - 1];
      AnalogMappingRun(init);
      MappedStep(init, bytes[|bytes| - 1]);
      assert init + [bytes[|bytes| - 1]] == bytes;
    }
  }

  /** Where payload bytes `bytes` leave a fresh analog-mapping state: silent, at index |bytes|, with the last-occurrence mapping. */
  ghost predicate Mapped(bytes: seq<byte>, t: Trace) {
    t.ok && t.events == [] && t.last.Some? && t.last.value.ParsingAnalogMapping?
    && t.last.value.portId == |bytes| && MapsLastOccurrence(t.last.value.mapping, bytes)
  }

  /** One more payload byte keeps the run's shape. */
  lemma MappedStep(init: seq<byte>, b: byte)
    requires |init| < TWO_31 - 1 && b != END_SYSEX
    requires Mapped(init, Run(Some(ParsingAnalogMapping(map[], 0)), init))
    ensures Mapped(init + [b], Run(Some(ParsingAnalogMapping(map[], 0)), init + [b]))
  {
    var t := Run(Some(ParsingAnalogMapping(map[], 0)), init);
    assert Run(Some(ParsingAnalogMapping(map[], 0)), init + [b]) == Continue(t, b) by {
      assert (init + [b])[..|init|] == init;
    }
    MappedContinue(init, t, b);
  }

  /** The shape on a trace, one byte further: the channel, unless 0x7F, now maps to the index just read. */
  lemma MappedContinue(bytes: seq<byte>, t: Trace, b: byte)
    requires |bytes| < TWO_31 - 1 && b != END_SYSEX && Mapped(bytes, t)
    ensures Mapped(bytes + [b], Continue(t, b))
  {
    var m := t.last.value.mapping;
    var next := |bytes| + 1;
    assert Wrap(|bytes| + 1) == next;
    assert Continue(t, b) == Trace(Some(ParsingAnalogMapping(if b != 0x7F then m[b := |bytes|] else m, next)), [], true);
    MapsExtend(m, bytes, b);
  }

  /** One more payload byte: a channel other than 0x7F is mapped to the new index, overwriting an earlier entry. */
  lemma MapsExtend(m: map<int32, int32>, init: seq<byte>, b: byte)
    requires |init| < TWO_31 - 1 && MapsLastOccurrence(m, init)
    ensures MapsLastOccurrence(if b != 0x7F then m[b := |init|] else m, init + [b])
  {
    var bytes := init + [b];
    assert forall i :: 0 <= i < |init| ==> bytes[i] == init[i];
  }

  // ---------------------------------------------------------------------------
  // The 7-bit group values of PinStateParsingState and ParsingExtendedAnalogMessageState

  /** The number whose base-128 digits, least significant first, are `buf[lo..hi]`, digit i weighted by 2^(7 (i - base)). */
  function Groups(buf: seq<byte>, lo: nat, hi: nat, base: nat): int
    requires base <= lo && (hi <= lo || hi <= |buf|)
    decreases hi
  {
    if hi <= lo then 0
    else Groups(buf, lo, hi - 1, base) + buf[hi - 1] * Pow2(7 * (hi - 1 - base))
  }

  /**
   * As long as every digit is below 0x80 and the groups fit in 31 bits, OR-ing
   * the shifted bytes adds them: the value is the base-128 number they spell.
   */
  lemma {:induction false} OrFoldIsSum(buf: seq<byte>, lo: nat, hi: nat, init: int32, base: nat)
    requires base <= lo <= hi <= |buf| && hi - base <= 4
    requires forall i :: lo <= i < hi ==> buf[i] < 0x80
    requires 0 <= init < Pow2(7 * (lo - base))
    ensures OrFold(buf, lo, hi, init, base) == init + Groups(buf, lo, hi, base)
    ensures 0 <= OrFold(buf, lo, hi, init, base) < Pow2(7 * (hi - base))
    decreases hi
  {
    if hi > lo {
      OrFoldIsSum(buf, lo, hi - 1, init, base);
      var acc := OrFold(buf, lo, hi - 1, init, base);
      var n := hi - 1 - base;
      var k := 7 * n;
      SmallShift(n);
      var y := SignedByte(buf[hi - 1]);
      assert OrFold(buf, lo, hi, init, base) == Or(acc, Shl(y, k));
      assert Groups(buf, lo, hi, base) == Groups(buf, lo, hi - 1, base) + y * Pow2(k);
      AddGroup(acc, y, k);
      assert 7 * (hi - base) == k + 7;
    } else {
      Pow2Monotone(7 * (lo - base), 7 * (hi - base));
    }
  }

  /** The shift distances of at most four 7-bit groups stay below 32, so the JVM's masking leaves them alone. */
  lemma SmallShift(n: nat)
    requires n < 4
    ensures (7 * n) % 32 == 7 * n
    ensures 7 * n == 0 || 7 * n == 7 || 7 * n == 14 || 7 * n == 21
  {
    if n == 0 {
    } else if n == 1 {
    } else if n == 2 {
    } else {
    }
  }

  /** One more 7-bit digit above the ones already collected is added by the OR. */
  lemma AddGroup(acc: int32, y: int32, k: nat)
    requires (k == 0 || k == 7 || k == 14 || k == 21) && 0 <= acc < Pow2(k) && 0 <= y < 0x80
    ensures 0 <= Or(acc, Shl(y, k)) == acc + y * Pow2(k) < Pow2(k + 7)
  {
    GroupPowers(k);
    GroupBound(acc, y, Pow2(k));
    OrDisjoint(acc, y, k);
  }

  /** The place values of the four 7-bit digits. */
  lemma GroupPowers(k: nat)
    requires k == 0 || k == 7 || k == 14 || k == 21
    ensures Pow2(k + 7) == 0x80 * Pow2(k)
    ensures Pow2(k) == 1 || Pow2(k) == 0x80 || Pow2(k) == 0x4000 || Pow2(k) == 0x20_0000
  {
    Pow2Values();
    Pow2Add(21, 7);
    assert Pow2(0) == 1;
  }

  /** A digit below 0x80 at place value p over a remainder below p stays below 0x80 p. */
  lemma GroupBound(acc: int, y: int, p: nat)
    requires p == 1 || p == 0x80 || p == 0x4000 || p == 0x20_0000
    requires 0 <= acc < p && 0 <= y < 0x80
    ensures 0 <= acc + y * p < 0x80 * p
  {
    if p == 1 {
    } else if p == 0x80 {
    } else if p == 0x4000 {
    } else {
    }
  }

  /** A pin-state reply with value bytes v0 .. v3 (each below 0x80) reports v0 + 128 v1 + 128^2 v2 + 128^3 v3. */
  lemma PinStateValueIsBase128(buf: seq<byte>)
    requires 2 <= |buf| <= 6 && forall i :: 2 <= i < |buf| ==> buf[i] < 0x80
    ensures PinStateValue(buf) == Groups(buf, 2, |buf|, 2)
  {
    OrFoldIsSum(buf, 2, |buf|, 0, 2);
  }

  /** An extended analog message with digits d1 .. d4 (after the channel byte) reports their base-128 value. */
  lemma ExtendedAnalogValueIsBase128(buf: seq<byte>)
    requires 2 <= |buf| <= 5 && forall i :: 1 <= i < |buf| ==> buf[i] < 0x80
    ensures ExtendedAnalogValue(buf) == buf[1] + Groups(buf, 2, |buf|, 1)
  {
    Pow2Values();
    assert Padded(buf, 2)[1] == buf[1];
    OrFoldIsSum(buf, 2, |buf|, buf[1], 1);
  }

  // ---------------------------------------------------------------------------
  // String and two-wire payloads

  /** A decoded string has one character per byte pair, and each character is a single byte. */
  lemma DecodedStringBytes(buffer: seq<byte>, offset: nat, length: int)
    requires offset + length <= |buffer| && length >= 0
    ensures DecodeString(buffer, offset, length).Some?
    ensures var s := DecodeString(buffer, offset, length).value;
      |s| == length / 2 && forall k :: 0 <= k < |s| ==> s[k] as int < 0x100
  {
  }

  /** Every number in a two-wire reply is a byte, so the register is never REGISTER_NOT_SET (-1). */
  lemma TwoWireReplyBytes(buf: seq<byte>)
    requires TwoWireDecode(buf).Some?
    ensures var e := TwoWireDecode(buf).value;
      0 <= e.address < 0x100 && 0 <= e.register < 0x100 && e.register != -1
      && forall k :: 0 <= k < |e.data| ==> 0 <= e.data[k] < 0x100
  {
  }

  /** Neither byte of a version report is checked or masked. */
  lemma VersionBytesUnmasked(major: int32, b: byte)
    ensures VersionStep(0, 0, b) == Moved(ParsingVersionMessage(1, b), [])
    ensures VersionStep(1, major, b) == Moved(WaitingForMessage, [VersionMessageEvent(major, b)])
  {
  }
}
