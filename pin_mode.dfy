/**
 * The pin modes a board reports (PinMode.kt) and `PinMode.resolve`, which maps
 * a mode byte received from the board to an entry.
 */
module PinModes {
  import opened Bitwise
  import opened FirmataProtocol
  import opened Wrappers

  /** The entries of the `PinMode` enum, in declaration order. */
  datatype PinMode =
    | Input | Output | Analog | Pwm | Servo | Shift | I2c | OneWire
    | Stepper | Encoder | Serial | PullUp | Unsupported | Ignored

  /** `PinMode.entries`. */
  const Entries: seq<PinMode> :=
    [Input, Output, Analog, Pwm, Servo, Shift, I2c, OneWire,
     Stepper, Encoder, Serial, PullUp, Unsupported, Ignored]

  /** `mode.ordinal`: the position of the entry in `Entries`. */
  function Ordinal(m: PinMode): (r: nat)
    ensures r < |Entries| && Entries[r] == m
  {
    match m
    case Input => 0
    case Output => 1
    case Analog => 2
    case Pwm => 3
    case Servo => 4
    case Shift => 5
    case I2c => 6
    case OneWire => 7
    case Stepper => 8
    case Encoder => 9
    case Serial => 10
    case PullUp => 11
    case Unsupported => 12
    case Ignored => 13
  }

  /**
   * `PinMode.resolve(mode)`: `PIN_MODE_IGNORE` is IGNORED, `TOTAL_PIN_MODES` is
   * UNSUPPORTED and anything else indexes `entries`. `None` stands for the
   * ArrayIndexOutOfBoundsException an index outside the enum raises.
   */
  function Resolve(mode: int32): (r: Option<PinMode>)
    ensures r.Some? <==> 0 <= mode <= TOTAL_PIN_MODES || mode == PIN_MODE_IGNORE
  {
    if mode == PIN_MODE_IGNORE then Some(Ignored)
    else if mode == TOTAL_PIN_MODES then Some(Unsupported)
    else if 0 <= mode < |Entries| then Some(Entries[mode])
    else None
  }

  /** The two special codes, and every other code in range, resolve as the enum says. */
  lemma ResolveCodes(mode: int32)
    ensures Resolve(PIN_MODE_IGNORE) == Some(Ignored)
    ensures Resolve(TOTAL_PIN_MODES) == Some(Unsupported)
    ensures 0 <= mode < TOTAL_PIN_MODES ==> Resolve(mode) == Some(Entries[mode])
    ensures 0 <= mode < TOTAL_PIN_MODES ==> Ordinal(Resolve(mode).value) == mode
  {
  }

  /**
   * Resolving an entry's ordinal gives the entry back, except for IGNORED, whose
   * ordinal 13 is `TOTAL_PIN_MODES` and resolves to UNSUPPORTED.
   */
  lemma ResolveOrdinal(m: PinMode)
    ensures m != Ignored ==> Resolve(Ordinal(m)) == Some(m)
    ensures m == Ignored ==> Resolve(Ordinal(m)) == Some(Unsupported)
  {
    if m != Ignored {
      assert Ordinal(m) < 13;
    }
  }

  /** The `PIN_MODE_*` constants are the ordinals of INPUT .. PULL_UP. */
  lemma ModeConstantsAreOrdinals()
    ensures [PIN_MODE_INPUT, PIN_MODE_OUTPUT, PIN_MODE_ANALOG, PIN_MODE_PWM, PIN_MODE_SERVO,
             PIN_MODE_SHIFT, PIN_MODE_TWO_WIRE, PIN_MODE_ONEWIRE, PIN_MODE_STEPPER,
             PIN_MODE_ENCODER, PIN_MODE_SERIAL, PIN_MODE_PULLUP]
         == [Ordinal(Input), Ordinal(Output), Ordinal(Analog), Ordinal(Pwm), Ordinal(Servo),
             Ordinal(Shift), Ordinal(I2c), Ordinal(OneWire), Ordinal(Stepper),
             Ordinal(Encoder), Ordinal(Serial), Ordinal(PullUp)]
    ensures TOTAL_PIN_MODES == Ordinal(Unsupported) + 1
  {
  }
}
