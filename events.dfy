/**
 * The events the frame state machine publishes (the classes of the
 * `protocol.fsm.event` package) and the keys its handler table is indexed by.
 */
module Events {
  import opened Bitwise
  import opened FirmataProtocol
  import opened PinModes

  datatype Event =
    | VersionMessageEvent(major: int32, minor: int32)
    | FirmwareMessageEvent(major: int32, minor: int32, message: string)
    | PinCapabilityResponseEvent(pin: int32, supportedModes: set<PinMode>)
    | PinCapabilitiesFinishedEvent
    | PinStateEvent(pin: int32, mode: PinMode, value: int32)
    | AnalogMappingEvent(mapping: map<int32, int32>)
    | AnalogMessageEvent(pin: int32, value: int32)
    | DigitalMessageEvent(pin: int32, value: int32)
    | StringMessageEvent(message: string)
    | TwoWireMessageEvent(address: int32, register: int32, data: seq<int32>)
    | CustomMessageEvent(buf: seq<byte>)
    | SystemResetEvent
    | ErrorEvent(command: int32)
    | FiniteStateMachineInTerminalStateEvent

  /**
   * The key a handler is registered under: the exact class of an event, or
   * `Any::class.java`, the catch-all.
   */
  datatype EventClass =
    | VersionMessage | FirmwareMessage | PinCapabilityResponse | PinCapabilitiesFinished
    | PinState | AnalogMapping | AnalogMessage | DigitalMessage | StringMessage
    | TwoWireMessage | CustomMessage | SystemReset | Error | FiniteStateMachineInTerminalState
    | AnyClass

  /** `event::class.java` */
  function ClassOf(e: Event): (c: EventClass)
    ensures c != AnyClass
  {
    match e
    case VersionMessageEvent(_, _) => VersionMessage
    case FirmwareMessageEvent(_, _, _) => FirmwareMessage
    case PinCapabilityResponseEvent(_, _) => PinCapabilityResponse
    case PinCapabilitiesFinishedEvent => PinCapabilitiesFinished
    case PinStateEvent(_, _, _) => PinState
    case AnalogMappingEvent(_) => AnalogMapping
    case AnalogMessageEvent(_, _) => AnalogMessage
    case DigitalMessageEvent(_, _) => DigitalMessage
    case StringMessageEvent(_) => StringMessage
    case TwoWireMessageEvent(_, _, _) => TwoWireMessage
    case CustomMessageEvent(_) => CustomMessage
    case SystemResetEvent => SystemReset
    case ErrorEvent(_) => Error
    case FiniteStateMachineInTerminalStateEvent => FiniteStateMachineInTerminalState
  }
}
