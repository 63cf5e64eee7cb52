/**
 * The two board descriptors (ArduinoUno.kt, ESP8266.kt): which pin numbers
 * have which role, and how a pin number maps to the index a command carries.
 * Both boards are `KuruboClient` subclasses; here a `Board` value selects the
 * overriding member.
 */
module Boards {
  import opened Bitwise

  datatype Board = ArduinoUno | Esp8266

  // ArduinoUno's companion constants
  const UNO_D2: int32 := 2
  const UNO_D3: int32 := 3
  const UNO_D5: int32 := 5
  const UNO_D6: int32 := 6
  const UNO_D9: int32 := 9
  const UNO_D10: int32 := 10
  const UNO_D11: int32 := 11
  const UNO_D13: int32 := 13
  const UNO_D19: int32 := 19
  const UNO_SS: int32 := UNO_D10
  const UNO_SCK: int32 := UNO_D13
  const UNO_A0: int32 := 14
  const UNO_A4: int32 := 18
  const UNO_A5: int32 := 19
  const UNO_A7: int32 := 21
  const UNO_SDA: int32 := UNO_A4
  const UNO_SCL: int32 := UNO_A5

  // ESP8266's companion constants
  const ESP_D0: int32 := 16
  const ESP_D1: int32 := 5
  const ESP_D2: int32 := 4
  const ESP_D3: int32 := 0
  const ESP_D4: int32 := 2
  const ESP_D5: int32 := 14
  const ESP_D6: int32 := 12
  const ESP_D7: int32 := 13
  const ESP_D8: int32 := 15
  const ESP_A0: int32 := 17
  const ESP_SDA: int32 := ESP_D2
  const ESP_SCL: int32 := ESP_D1
  const ESP_SS: int32 := ESP_D8
  const ESP_MOSI: int32 := ESP_D7
  const ESP_MISO: int32 := ESP_D6
  const ESP_SCK: int32 := ESP_D5
  const ESP_MAX_SERVOS: int32 := 9
  const ESP_LED_BUILTIN: int32 := ESP_D4
  const ESP_LED_BUILTIN_AUX: int32 := ESP_D0

  function NumberOfDigitalPins(board: Board): int32 {
    match board
    case ArduinoUno => 20
    case Esp8266 => 17
  }

  function NumberOfAnalogPins(board: Board): int32 {
    match board
    case ArduinoUno => 8
    case Esp8266 => 1
  }

  predicate IsPinLED(board: Board, pin: int32) {
    match board
    case ArduinoUno => pin == UNO_D13
    case Esp8266 => pin == ESP_LED_BUILTIN || pin == ESP_LED_BUILTIN_AUX
  }

  predicate IsPinDigital(board: Board, pin: int32) {
    match board
    case ArduinoUno => UNO_D2 <= pin <= UNO_D19
    case Esp8266 => (ESP_D3 <= pin <= ESP_D1) || (ESP_D6 <= pin < ESP_A0)
  }

  predicate IsPinAnalog(board: Board, pin: int32) {
    match board
    case ArduinoUno => UNO_A0 <= pin <= UNO_A7
    case Esp8266 => pin == ESP_A0
  }

  predicate IsPinPWM(board: Board, pin: int32) {
    match board
    case ArduinoUno =>
      pin == UNO_D3 || pin == UNO_D5 || pin == UNO_D6 || pin == UNO_D9 || pin == UNO_D10 || pin == UNO_D11
    case Esp8266 => pin < ESP_A0
  }

  function PinToDigitalIndex(board: Board, pin: int32): int32 {
    pin
  }

  /** `pin - A0`, with `Int` wrap-around. */
  function PinToAnalogIndex(board: Board, pin: int32): int32 {
    match board
    case ArduinoUno => Wrap(pin - UNO_A0)
    case Esp8266 => Wrap(pin - ESP_A0)
  }

  function PinToPWMIndex(board: Board, pin: int32): int32 {
    pin
  }

  function PinToServoIndex(board: Board, pin: int32): int32 {
    match board
    case ArduinoUno => Wrap(pin - UNO_D2)
    case Esp8266 => pin
  }

  predicate IsPinServo(board: Board, pin: int32) {
    match board
    case ArduinoUno => IsPinDigital(board, pin) && PinToServoIndex(board, pin) < 0
    case Esp8266 => IsPinDigital(board, pin) && pin < ESP_MAX_SERVOS
  }

  predicate IsPinTwoWire(board: Board, pin: int32) {
    match board
    case ArduinoUno => pin == UNO_SDA || pin == UNO_SCL
    case Esp8266 => pin == ESP_SDA || pin == ESP_SCL
  }

  predicate IsPinSPI(board: Board, pin: int32) {
    match board
    case ArduinoUno => UNO_SS <= pin <= UNO_SCK
    case Esp8266 => pin == ESP_SS || pin == ESP_MOSI || pin == ESP_MISO || pin == ESP_SCK
  }

  // ---------------------------------------------------------------------------

  /** The Uno's pin roles by number. */
  lemma UnoPinRoles(pin: int32)
    ensures IsPinLED(ArduinoUno, pin) <==> pin == 13
    ensures IsPinDigital(ArduinoUno, pin) <==> 2 <= pin <= 19
    ensures IsPinAnalog(ArduinoUno, pin) <==> 14 <= pin <= 21
    ensures IsPinPWM(ArduinoUno, pin) <==> pin in {3, 5, 6, 9, 10, 11}
    ensures IsPinTwoWire(ArduinoUno, pin) <==> pin in {18, 19}
    ensures IsPinSPI(ArduinoUno, pin) <==> 10 <= pin <= 13
  {
  }

  /** The Uno's analog pins are numbered on from the digital ones: A0 .. A7 map onto channels 0 .. 7. */
  lemma UnoAnalogIndices(pin: int32)
    requires IsPinAnalog(ArduinoUno, pin)
    ensures 0 <= PinToAnalogIndex(ArduinoUno, pin) < NumberOfAnalogPins(ArduinoUno)
    ensures PinToAnalogIndex(ArduinoUno, pin) + 14 == pin
  {
  }

  /**
   * No Uno pin is a servo pin: a digital pin is at least D2, so its servo index
   * `pin - D2` is never negative.
   */
  lemma UnoHasNoServoPins(pin: int32)
    ensures !IsPinServo(ArduinoUno, pin)
    ensures IsPinDigital(ArduinoUno, pin) ==> PinToServoIndex(ArduinoUno, pin) >= 0
  {
  }

  /** The ESP8266's pin roles by GPIO number. */
  lemma EspPinRoles(pin: int32)
    ensures IsPinLED(Esp8266, pin) <==> pin in {2, 16}
    ensures IsPinDigital(Esp8266, pin) <==> (0 <= pin <= 5 || 12 <= pin <= 16)
    ensures IsPinAnalog(Esp8266, pin) <==> pin == 17
    ensures IsPinPWM(Esp8266, pin) <==> pin < 17
    ensures IsPinServo(Esp8266, pin) <==> 0 <= pin <= 5
    ensures IsPinTwoWire(Esp8266, pin) <==> pin in {4, 5}
    ensures IsPinSPI(Esp8266, pin) <==> pin in {12, 13, 14, 15}
  {
  }

  /** The ESP8266's single analog input is channel 0. */
  lemma EspAnalogIndex()
    ensures PinToAnalogIndex(Esp8266, 17) == 0
    ensures forall pin: int32 :: IsPinAnalog(Esp8266, pin) ==> PinToAnalogIndex(Esp8266, pin) == 0
  {
  }
}
