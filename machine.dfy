/**
 * The frame state machine (FiniteStateMachine.kt) and the `process` bodies of
 * its states, as an object whose current state, handler table and delivery
 * log are updated in place.
 *
 * The executor that runs handlers is left out: `handle` records, in order,
 * which handler chain each event is handed to (`deliveries`), and every
 * published event is kept in `published`. Each state's `process` is a method
 * proved to take the outcome `States.Step` describes; `Run` is the fold of that
 * step over a byte sequence, and `ProcessBuffer` is proved against it.
 */
module Machine {
  import opened Bitwise
  import opened FirmataProtocol
  import opened Wrappers
  import opened PinModes
  import opened Events
  import opened States

  /** Identifies one `Consumer` passed to `addHandler`. */
  type HandlerId = nat

  /** One task handed to the executor: a handler chain and the event it accepts. */
  datatype Delivery = Delivery(chain: seq<HandlerId>, event: Event)

  /**
   * What `handle(event)` hands to the executor: the chain registered for the
   * event's exact class, when there is one, and then the catch-all chain, when
   * there is one (its lookup finds nothing otherwise).
   */
  function Deliveries(handlers: map<EventClass, seq<HandlerId>>, e: Event): (ds: seq<Delivery>)
    ensures |ds| == (if ClassOf(e) in handlers then 1 else 0) + (if AnyClass in handlers then 1 else 0)
    ensures forall d :: d in ds ==> d.event == e
    ensures ClassOf(e) in handlers ==> ds[0].chain == handlers[ClassOf(e)]
    ensures AnyClass in handlers ==> ds[|ds| - 1].chain == handlers[AnyClass]
  {
    (if ClassOf(e) in handlers then [Delivery(handlers[ClassOf(e)], e)] else [])
    + (if AnyClass in handlers then [Delivery(handlers[AnyClass], e)] else [])
  }

  /** The deliveries of a run of events, event by event. */
  function DeliverAll(handlers: map<EventClass, seq<HandlerId>>, es: seq<Event>): seq<Delivery>
    decreases |es|
  {
    if es == [] then []
    else DeliverAll(handlers, es[..|es| - 1]) + Deliveries(handlers, es[|es| - 1])
  }

  /** A missing exact-class handler is only logged: the catch-all still gets the event. */
  lemma MissingHandlerStillReachesCatchAll(handlers: map<EventClass, seq<HandlerId>>, e: Event)
    requires ClassOf(e) !in handlers && AnyClass in handlers
    ensures Deliveries(handlers, e) == [Delivery(handlers[AnyClass], e)]
  {
  }

  lemma {:induction false} DeliverAllAppend(handlers: map<EventClass, seq<HandlerId>>, xs: seq<Event>, ys: seq<Event>)
    ensures DeliverAll(handlers, xs + ys) == DeliverAll(handlers, xs) + DeliverAll(handlers, ys)
    decreases |ys|
  {
    if ys == [] {
      assert xs + ys == xs;
    } else {
      var init, e := ys[..|ys| - 1], ys[|ys| - 1];
      assert xs + ys == (xs + init) + [e];
      DeliverAllAppend(handlers, xs, init);
      DeliverOne(handlers, xs + init, e);
      DeliverOne(handlers, init, e);
      assert ys == init + [e];
      ConcatAssociates(DeliverAll(handlers, xs), DeliverAll(handlers, init), Deliveries(handlers, e));
    }
  }

  /** Appending the `i`-th event of `es` to a log holding the first `i` extends it to the first `i + 1`. */
  lemma LogExtends(log: seq<Event>, sent: seq<Delivery>, handlers: map<EventClass, seq<HandlerId>>, es: seq<Event>, i: nat)
    requires i < |es|
    ensures log + es[..i] + [es[i]] == log + es[..i + 1]
    ensures sent + DeliverAll(handlers, es[..i]) + Deliveries(handlers, es[i]) == sent + DeliverAll(handlers, es[..i + 1])
  {
    assert es[..i + 1] == es[..i] + [es[i]];
    DeliverOne(handlers, es[..i], es[i]);
    ConcatAssociates(log, es[..i], [es[i]]);
    ConcatAssociates(sent, DeliverAll(handlers, es[..i]), Deliveries(handlers, es[i]));
  }

  lemma DeliverOne(handlers: map<EventClass, seq<HandlerId>>, xs: seq<Event>, e: Event)
    ensures DeliverAll(handlers, xs + [e]) == DeliverAll(handlers, xs) + Deliveries(handlers, e)
  {
    assert (xs + [e])[..|xs|] == xs;
  }

  // ---------------------------------------------------------------------------
  // The fold of `process(b)` over a byte sequence

  /** Where a sequence of `process` calls leaves the machine: its state, what it published, and whether it got through. */
  datatype Trace = Trace(last: Option<State>, events: seq<Event>, ok: bool)

  /**
   * One more `process(b)` call after `t`: nothing once an exception has
   * escaped; the terminal-state event when there is no current state; the
   * current state's step otherwise.
   */
  function Continue(t: Trace, b: byte): Trace {
    if !t.ok then t
    else
      match t.last
      case None => Trace(None, t.events + [FiniteStateMachineInTerminalStateEvent], true)
      case Some(s) =>
        match Step(s, b)
        case Thrown => Trace(t.last, t.events, false)
        case Moved(next, es) => Trace(Some(next), t.events + es, true)
  }

  function Resume(t: Trace, bytes: seq<byte>): Trace
    decreases |bytes|
  {
    if bytes == [] then t else Continue(Resume(t, bytes[..|bytes| - 1]), bytes[|bytes| - 1])
  }

  /** `process(b)` for each byte of `bytes` in order, from current state `c`. */
  function Run(c: Option<State>, bytes: seq<byte>): Trace {
    Resume(Trace(c, [], true), bytes)
  }

  /** Feeding two chunks one after the other is feeding their concatenation. */
  lemma {:induction false} ResumeAppend(t: Trace, xs: seq<byte>, ys: seq<byte>)
    ensures Resume(t, xs + ys) == Resume(Resume(t, xs), ys)
    decreases |ys|
  {
    if ys == [] {
      assert xs + ys == xs;
    } else {
      assert (xs + ys)[..|xs + ys| - 1] == xs + ys[..|ys| - 1];
      ResumeAppend(t, xs, ys[..|ys| - 1]);
    }
  }

  /** Once an exception has escaped, later bytes change nothing. */
  lemma {:induction false} ResumeStopped(t: Trace, bytes: seq<byte>)
    requires !t.ok
    ensures Resume(t, bytes) == t
    decreases |bytes|
  {
    if bytes != [] {
      ResumeStopped(t, bytes[..|bytes| - 1]);
    }
  }

  /** Earlier events are never retracted: a run's events extend the events it started with. */
  lemma {:induction false} ResumeExtends(t: Trace, bytes: seq<byte>)
    ensures |t.events| <= |Resume(t, bytes).events|
    ensures Resume(t, bytes).events[..|t.events|] == t.events
    decreases |bytes|
  {
    if bytes != [] {
      ResumeExtends(t, bytes[..|bytes| - 1]);
    }
  }

  /** Without a current state every byte only reports that, and nothing else changes. */
  lemma {:induction false} RunWithoutState(bytes: seq<byte>)
    ensures Run(None, bytes) == Trace(None, seq(|bytes|, _ => FiniteStateMachineInTerminalStateEvent), true)
    decreases |bytes|
  {
    if bytes != [] {
      RunWithoutState(bytes[..|bytes| - 1]);
    }
  }

  /** `Continue` from the machine's published log and from an empty one publish the same new events. */
  lemma ContinueEvents(t: Trace, log: seq<Event>, b: byte)
    requires t.ok
    ensures var u := Continue(Trace(t.last, log, true), b);
      var v := Continue(t, b);
      u.last == v.last && u.ok == v.ok && |log| <= |u.events| && u.events[..|log|] == log
      && v.events == t.events + u.events[|log|..]
  {
    match t.last
    case None =>
    case Some(s) =>
      match Step(s, b)
      case Thrown =>
      case Moved(_, es) =>
        assert (log + es)[|log|..] == es;
  }

  lemma ConcatAssociates<T>(a: seq<T>, b: seq<T>, c: seq<T>)
    ensures (a + b) + c == a + (b + c)
  {
  }

  lemma SliceExtend(s: seq<byte>, i: nat, j: nat)
    requires i <= j < |s|
    ensures s[i..j + 1] == s[i..j] + [s[j]]
  {
  }

  lemma SliceJoin(s: seq<byte>, i: nat, j: nat, k: nat)
    requires i <= j <= k <= |s|
    ensures s[i..j] + s[j..k] == s[i..k]
  {
  }

  /** One more `process` call on the machine, whose log already holds `before`, extends the fold by one byte. */
  lemma FeedOne(start: Trace, xs: seq<byte>, b: byte, base: seq<Event>, before: seq<Event>,
                after: seq<Event>, last: Option<State>, ok: bool)
    requires Resume(start, xs).ok && before == base + Resume(start, xs).events
    requires var u := Continue(Trace(Resume(start, xs).last, before, true), b);
      after == u.events && last == u.last && ok == u.ok
    ensures var v := Resume(start, xs + [b]);
      last == v.last && ok == v.ok && after == base + v.events
      && |before| <= |after| && v.events == Resume(start, xs).events + after[|before|..]
  {
    var t := Resume(start, xs);
    assert Resume(start, xs + [b]) == Continue(t, b) by {
      assert (xs + [b])[..|xs|] == xs;
    }
    ContinueEvents(t, before, b);
    var u := Continue(Trace(t.last, before, true), b);
    assert after == before + after[|before|..] by {
      assert after[..|before|] == before;
    }
    ConcatAssociates(base, t.events, after[|before|..]);
  }

  /** After a call has thrown, the rest of the bytes are not fed. */
  lemma StoppedRun(start: Trace, xs: seq<byte>, ys: seq<byte>)
    requires !Resume(start, xs).ok
    ensures Resume(start, xs + ys) == Resume(start, xs)
  {
    ResumeAppend(start, xs, ys);
    ResumeStopped(Resume(start, xs), ys);
  }

  /** A run over `s[from..to]` that stopped at byte `j` is the run over `s[from..j]`. */
  lemma StoppedSlice(start: Trace, s: seq<byte>, from: nat, j: nat, to: nat)
    requires from <= j <= to <= |s| && !Resume(start, s[from..j]).ok
    ensures Resume(start, s[from..to]) == Resume(start, s[from..j])
  {
    SliceJoin(s, from, j, to);
    StoppedRun(start, s[from..j], s[j..to]);
  }

  // ---------------------------------------------------------------------------
  // `process(buffer, offset, length)`

  /**
   * The bytes the loop `for (i in offset until offset + length)` reads before it
   * ends or indexes out of bounds; `offset + length` wraps as an `Int` sum does.
   */
  function Visited(buffer: seq<byte>, offset: int32, length: int32): (r: seq<byte>)
    ensures |r| <= |buffer|
  {
    var end := Wrap(offset + length);
    if offset < 0 || offset >= end || offset >= |buffer| then []
    else buffer[offset .. if end < |buffer| then end else |buffer|]
  }

  /** The loop reaches an index outside the array, which throws. */
  predicate Overruns(n: nat, offset: int32, length: int32) {
    var end := Wrap(offset + length);
    offset < end && (offset < 0 || end > n)
  }

  /** An in-bounds window is read exactly, in order, and never overruns. */
  lemma VisitedWindow(buffer: seq<byte>, offset: int32, length: int32)
    requires 0 <= offset && 0 <= length && offset + length <= |buffer| < TWO_31
    ensures Visited(buffer, offset, length) == buffer[offset .. offset + length]
    ensures !Overruns(|buffer|, offset, length)
  {
  }

  /** `buffer[i].toInt() and 0xFF`: the byte pattern read back as 0..255. */
  lemma UnmaskedByte(b: byte)
    ensures And(SignedByte(b), 0xFF) == b
  {
    Pow2Values();
    AndLowMask(SignedByte(b), 0xFF, 8);
  }

  /** Event i of a digital message, written as the source computes it. */
  lemma DigitalEventAt(portId: int32, value: int32, i: nat, e: Event)
    requires i < 8 && e == DigitalMessageEvent(Wrap(Wrap(portId * 8) + i), And(Ushr(value, i), 0x01))
    ensures DigitalEvents(portId, value)[i] == e
  {
    UshrLowBit(value, i);
  }

  /** Once an unresolvable mode has been met, the longer prefixes fail too. */
  lemma {:induction false} ModesBelowStaysNone(buf: seq<byte>, i: nat, j: nat)
    requires i % 2 == 0 && j % 2 == 0 && i <= j <= |buf| + 1
    requires ModesBelow(buf, i).None?
    ensures ModesBelow(buf, j).None?
    decreases j
  {
    if j > i {
      ModesBelowStaysNone(buf, i, j - 2);
    }
  }

  /**
   * The value loop of the pin-state and extended-analog states: starting from
   * `init`, byte i of the buffer (from index 2 on) is OR-ed in shifted left
   * by 7 (i - base) bits.
   */
  method FoldGroups(buf: seq<byte>, init: int32, base: nat) returns (value: int32)
    requires base <= 2
    ensures value == OrFold(buf, 2, |buf|, init, base)
  {
    value := init;
    var i := 2;
    while i < |buf|
      invariant 2 <= i && (i == 2 || i <= |buf|)
      invariant value == OrFold(buf, 2, i, init, base)
    {
      value := Or(value, Shl(SignedByte(buf[i]), (7 * (i - base)) % 32));
      i := i + 1;
    }
  }

  /**
   * The mode loop of the capability state: the modes at even offsets of the
   * buffer, or None at the first byte that names no mode.
   */
  method CollectModes(buf: seq<byte>) returns (r: Option<set<PinMode>>)
    ensures r == CapabilityModes(buf)
  {
    var modes: set<PinMode> := {};
    var i := 0;
    while i < |buf|
      invariant i % 2 == 0 && i <= |buf| + 1
      invariant ModesBelow(buf, i) == Some(modes)
    {
      var m := Resolve(SignedByte(buf[i]));
      if m.None? {
        ModesBelowStaysNone(buf, i + 2, |buf| + |buf| % 2);
        return None;
      }
      modes := modes + {m.value};
      i := i + 2;
    }
    return Some(modes);
  }

  // ---------------------------------------------------------------------------

  class FiniteStateMachine {
    /** `currentState` */
    var current: Option<State>
    /** `handlers`: the chain of consumers registered per event class, in registration order. */
    var handlers: map<EventClass, seq<HandlerId>>
    /** Every event handed to `handle`, in order. */
    var published: seq<Event>
    /** Every handler chain handed to the executor, with its event, in order. */
    var deliveries: seq<Delivery>

    /** The machine with its reflectively constructed initial state, which starts empty. */
    constructor(initial: State)
      requires Fresh(initial)
      ensures current == Some(initial) && handlers == map[] && published == [] && deliveries == []
    {
      current := Some(initial);
      handlers := map[];
      published := [];
      deliveries := [];
    }

    /** The machine took outcome `o`: it moved and published, or it is untouched. */
    twostate predicate Took(o: Outcome)
      reads this
    {
      handlers == old(handlers)
      && match o
         case Thrown =>
           current == old(current) && published == old(published) && deliveries == old(deliveries)
         case Moved(next, es) =>
           current == Some(next) && published == old(published) + es
           && deliveries == old(deliveries) + DeliverAll(handlers, es)
    }

    /** `transitTo(state)`, and `transitTo(type)` with the freshly constructed state. */
    method TransitTo(s: State)
      modifies this
      ensures current == Some(s)
      ensures handlers == old(handlers) && published == old(published) && deliveries == old(deliveries)
    {
      current := Some(s);
    }

    /** Publishing event i of a run whose first i events have been published. */
    method HandleNext(e: Event, ghost log: seq<Event>, ghost sent: seq<Delivery>, ghost es: seq<Event>, ghost i: nat)
      requires i < |es| && e == es[i]
      requires published == log + es[..i] && deliveries == sent + DeliverAll(handlers, es[..i])
      modifies this
      ensures published == log + es[..i + 1] && deliveries == sent + DeliverAll(handlers, es[..i + 1])
      ensures current == old(current) && handlers == old(handlers)
    {
      Handle(e);
      LogExtends(log, sent, handlers, es, i);
    }

    /** `handle(event)`, which is also every state's `publish(event)`. */
    method Handle(e: Event)
      modifies this
      ensures published == old(published) + [e]
      ensures deliveries == old(deliveries) + Deliveries(handlers, e)
      ensures current == old(current) && handlers == old(handlers)
    {
      published := published + [e];
      deliveries := deliveries + Deliveries(handlers, e);
    }

    /** `addHandler(type, handler)`: a second handler for a class runs after the first (`andThen`). */
    method AddHandler(c: EventClass, h: HandlerId)
      modifies this
      ensures handlers == old(handlers)[c := (if c in old(handlers) then old(handlers)[c] else []) + [h]]
      ensures current == old(current) && published == old(published) && deliveries == old(deliveries)
    {
      if c in handlers {
        handlers := handlers[c := handlers[c] + [h]];
      } else {
        assert [] + [h] == [h];
        handlers := handlers[c := [h]];
      }
    }

    /** Publish one event and install the next state. */
    method PublishThenTransit(e: Event, next: State)
      modifies this
      ensures Took(Moved(next, [e]))
    {
      Handle(e);
      DeliverOne(handlers, [], e);
      TransitTo(next);
    }

    // -------------------------------------------------------------------------
    // The states' `process(b)`

    method ProcessWaiting(b: byte)
      modifies this
      ensures Took(WaitingStep(b))
    {
      var command := if b < 0xF0 then And(b, 0xF0) else b;
      assert command == DispatchKey(b);
      if command == DIGITAL_MESSAGE {
        TransitTo(ParsingDigitalMessage(And(b, 0x0F), 0, 0));
      } else if command == ANALOG_MESSAGE {
        TransitTo(ParsingAnalogMessage(And(b, 0x0F), 0, 0));
      } else if command == REPORT_VERSION {
        TransitTo(ParsingVersionMessage(0, 0));
      } else if command == START_SYSEX {
        TransitTo(ParsingSysexMessage);
      } else if command == SYSTEM_RESET {
        PublishThenTransit(SystemResetEvent, WaitingForMessage);
      } else {
        PublishThenTransit(ErrorEvent(command), WaitingForMessage);
      }
    }

    /**
     * A sub-command with its own state selects it; any other byte is written to
     * a new custom state, whose own `process` runs first, and that state is
     * installed afterwards, over whatever its `process` installed.
     */
    method ProcessSysex(b: byte)
      modifies this
      ensures Took(SysexStep(b))
    {
      var target := SysexTarget(b);
      if target.Some? {
        TransitTo(target.value);
      } else if b == END_SYSEX {
        PublishThenTransit(CustomMessageEvent([]), WaitingForMessage);
        TransitTo(ParsingCustomSysexMessage([]));
      } else {
        TransitTo(ParsingCustomSysexMessage([b]));
      }
    }

    method ProcessDigital(portId: int32, counter: int32, value: int32, b: byte)
      requires current == Some(ParsingDigitalMessage(portId, counter, value))
      modifies this
      ensures Took(DigitalStep(portId, counter, value, b))
    {
      if counter == 0 {
        TransitTo(ParsingDigitalMessage(portId, counter + 1, b));
      } else if counter == 1 {
        PublishPins(portId, Or(value, Shl(b, 7)));
        TransitTo(WaitingForMessage);
      }
    }

    /** `repeat(8) { publish(DigitalMessageEvent(pin + it, value ushr it and 0x01)) }` */
    method PublishPins(portId: int32, v: int32)
      modifies this
      ensures published == old(published) + DigitalEvents(portId, v)
      ensures deliveries == old(deliveries) + DeliverAll(handlers, DigitalEvents(portId, v))
      ensures handlers == old(handlers) && current == old(current)
    {
      var pin := Wrap(portId as int * 8);
      ghost var es := DigitalEvents(portId, v);
      var i: nat := 0;
      while i < 8
        invariant 0 <= i <= 8
        invariant handlers == old(handlers) && current == old(current)
        invariant published == old(published) + es[..i]
        invariant deliveries == old(deliveries) + DeliverAll(handlers, es[..i])
      {
        PublishPin(pin, v, i, portId, old(published), old(deliveries));
        i := i + 1;
      }
      assert es[..8] == es;
    }

    /** One round of the loop: pin `pin + i` gets bit i of `v`. */
    method PublishPin(pin: int32, v: int32, i: nat, ghost portId: int32, ghost log: seq<Event>, ghost sent: seq<Delivery>)
      requires i < 8 && pin == Wrap(portId * 8)
      requires published == log + DigitalEvents(portId, v)[..i]
      requires deliveries == sent + DeliverAll(handlers, DigitalEvents(portId, v)[..i])
      modifies this
      ensures published == log + DigitalEvents(portId, v)[..i + 1]
      ensures deliveries == sent + DeliverAll(handlers, DigitalEvents(portId, v)[..i + 1])
      ensures current == old(current) && handlers == old(handlers)
    {
      var e := DigitalMessageEvent(Wrap(pin as int + i), And(Ushr(v, i), 0x01));
      DigitalEventAt(portId, v, i, e);
      HandleNext(e, log, sent, DigitalEvents(portId, v), i);
    }

    /** The analog message has the digital message's shape and publishes one value. */
    method ProcessAnalog(portId: int32, counter: int32, value: int32, b: byte)
      requires current == Some(ParsingAnalogMessage(portId, counter, value))
      modifies this
      ensures Took(AnalogStep(portId, counter, value, b))
    {
      if counter == 0 {
        TransitTo(ParsingAnalogMessage(portId, counter + 1, b));
      } else if counter == 1 {
        PublishThenTransit(AnalogMessageEvent(portId, Or(value, Shl(b, 7))), WaitingForMessage);
      }
    }

    method ProcessVersion(counter: int32, major: int32, b: byte)
      modifies this
      ensures Took(VersionStep(counter, major, b))
    {
      if counter == 0 {
        TransitTo(ParsingVersionMessage(Wrap(counter + 1), b));
      } else {
        PublishThenTransit(VersionMessageEvent(major, b), WaitingForMessage);
      }
    }

    /** Collect the modes at even offsets; an unresolvable mode throws before anything is published. */
    method ProcessCapability(pin: int32, buf: seq<byte>, b: byte) returns (ok: bool)
      modifies this
      ensures Took(CapabilityStep(pin, buf, b))
      ensures ok == CapabilityStep(pin, buf, b).Moved?
    {
      ok := true;
      if b == END_SYSEX {
        PublishThenTransit(PinCapabilitiesFinishedEvent, WaitingForMessage);
      } else if b == 127 {
        var modes := CollectModes(buf);
        if modes.None? {
          return false;
        }
        PublishThenTransit(PinCapabilityResponseEvent(pin, modes.value), ParsingCapabilityResponse(Wrap(pin + 1), []));
      } else {
        TransitTo(ParsingCapabilityResponse(pin, buf + [b]));
      }
    }

    method ProcessAnalogMapping(mapping: map<int32, int32>, portId: int32, b: byte)
      modifies this
      ensures Took(AnalogMappingStep(mapping, portId, b))
    {
      if b == END_SYSEX {
        PublishThenTransit(AnalogMappingEvent(mapping), WaitingForMessage);
      } else {
        var m := if b != 127 then mapping[b := portId] else mapping;
        TransitTo(ParsingAnalogMapping(m, Wrap(portId + 1)));
      }
    }

    method ProcessPinState(buf: seq<byte>, b: byte) returns (ok: bool)
      modifies this
      ensures Took(PinStateStep(buf, b))
      ensures ok == PinStateStep(buf, b).Moved?
    {
      ok := true;
      if b == END_SYSEX {
        var value := FoldGroups(buf, 0, 2);
        var head := Padded(buf, 2);
        var mode := Resolve(SignedByte(head[1]));
        if mode.None? {
          return false;
        }
        PublishThenTransit(PinStateEvent(SignedByte(head[0]), mode.value, value), WaitingForMessage);
      } else {
        TransitTo(PinStateParsing(buf + [b]));
      }
    }

    method ProcessExtendedAnalog(buf: seq<byte>, b: byte)
      modifies this
      ensures Took(ExtendedAnalogStep(buf, b))
    {
      if b == END_SYSEX {
        var head := Padded(buf, 2);
        var portId := SignedByte(head[0]);
        var value := FoldGroups(buf, SignedByte(head[1]), 1);
        assert Padded(buf, 1)[0] == head[0];
        PublishThenTransit(AnalogMessageEvent(portId, value), WaitingForMessage);
      } else {
        TransitTo(ParsingExtendedAnalogMessage(buf + [b]));
      }
    }

    method ProcessString(buf: seq<byte>, b: byte) returns (ok: bool)
      modifies this
      ensures Took(StringStep(buf, b))
      ensures ok == StringStep(buf, b).Moved?
    {
      ok := true;
      if b == END_SYSEX {
        var message := DecodeString(buf, 0, |buf|);
        if message.None? {
          return false;
        }
        PublishThenTransit(StringMessageEvent(message.value), WaitingForMessage);
      } else {
        TransitTo(ParsingStringMessage(buf + [b]));
      }
    }

    method ProcessFirmware(buf: seq<byte>, b: byte) returns (ok: bool)
      modifies this
      ensures Took(FirmwareStep(buf, b))
      ensures ok == FirmwareStep(buf, b).Moved?
    {
      ok := true;
      if b == END_SYSEX {
        var head := Padded(buf, 2);
        var name := DecodeString(head, 2, |buf| - 2);
        if name.None? {
          return false;
        }
        PublishThenTransit(FirmwareMessageEvent(SignedByte(head[0]), SignedByte(head[1]), name.value), WaitingForMessage);
      } else {
        TransitTo(ParsingFirmwareMessage(buf + [b]));
      }
    }

    method ProcessTwoWire(buf: seq<byte>, b: byte) returns (ok: bool)
      modifies this
      ensures Took(TwoWireStep(buf, b))
      ensures ok == TwoWireStep(buf, b).Moved?
    {
      ok := true;
      if b == END_SYSEX {
        var e := TwoWireDecode(buf);
        if e.None? {
          return false;
        }
        PublishThenTransit(e.value, WaitingForMessage);
      } else {
        TransitTo(ParsingTwoWireMessage(buf + [b]));
      }
    }

    method ProcessCustom(buf: seq<byte>, b: byte)
      modifies this
      ensures Took(CustomStep(buf, b))
    {
      if b == END_SYSEX {
        PublishThenTransit(CustomMessageEvent(buf), WaitingForMessage);
      } else {
        TransitTo(ParsingCustomSysexMessage(buf + [b]));
      }
    }

    /** `state.process(b)` on the current state `s`; `ok` is false when it throws. */
    method ProcessState(s: State, b: byte) returns (ok: bool)
      requires current == Some(s)
      modifies this
      ensures Took(Step(s, b))
      ensures ok == Step(s, b).Moved?
    {
      ok := true;
      match s {
        case WaitingForMessage => ProcessWaiting(b);
        case ParsingDigitalMessage(portId, counter, value) => ProcessDigital(portId, counter, value, b);
        case ParsingAnalogMessage(portId, counter, value) => ProcessAnalog(portId, counter, value, b);
        case ParsingVersionMessage(counter, major) => ProcessVersion(counter, major, b);
        case ParsingSysexMessage => ProcessSysex(b);
        case ParsingFirmwareMessage(buf) => ok := ProcessFirmware(buf, b);
        case ParsingExtendedAnalogMessage(buf) => ProcessExtendedAnalog(buf, b);
        case ParsingCapabilityResponse(pin, buf) => ok := ProcessCapability(pin, buf, b);
        case ParsingAnalogMapping(mapping, portId) => ProcessAnalogMapping(mapping, portId, b);
        case PinStateParsing(buf) => ok := ProcessPinState(buf, b);
        case ParsingStringMessage(buf) => ok := ProcessString(buf, b);
        case ParsingTwoWireMessage(buf) => ok := ProcessTwoWire(buf, b);
        case ParsingCustomSysexMessage(buf) => ProcessCustom(buf, b);
      }
    }

    // -------------------------------------------------------------------------

    /** `process(b)`: the current state's `process`, or the terminal-state event when there is none. */
    method Process(b: byte) returns (ok: bool)
      modifies this
      ensures var t := Continue(Trace(old(current), old(published), true), b);
        current == t.last && published == t.events && ok == t.ok
        && handlers == old(handlers)
        && deliveries == old(deliveries) + DeliverAll(handlers, published[|old(published)|..])
    {
      match current
      case None =>
        ok := true;
        Handle(FiniteStateMachineInTerminalStateEvent);
        assert published[|old(published)|..] == [FiniteStateMachineInTerminalStateEvent];
        DeliverOne(handlers, [], FiniteStateMachineInTerminalStateEvent);
      case Some(s) =>
        ok := ProcessState(s, b);
        match Step(s, b)
        case Thrown =>
          assert published[|old(published)|..] == [];
        case Moved(_, es) =>
          assert published[|old(published)|..] == es;
    }

    /**
     * `process(buffer, offset, length)`: `process(buffer[i].toInt() and 0xFF)`
     * for i from offset up to `offset + length`. An index outside the array
     * throws once the bytes before it are processed, and so does a state's
     * `process`; either ends the loop with `ok` false.
     */
    method ProcessBuffer(buffer: seq<byte>, offset: int32, length: int32) returns (ok: bool)
      modifies this
      ensures var t := Run(old(current), Visited(buffer, offset, length));
        current == t.last && published == old(published) + t.events
        && ok == (t.ok && !Overruns(|buffer|, offset, length))
        && handlers == old(handlers)
        && deliveries == old(deliveries) + DeliverAll(handlers, t.events)
    {
      var end := Wrap(offset + length);
      if offset >= end {
        return true;
      }
      if offset < 0 || offset >= |buffer| {
        return false;
      }
      var stop := if end < |buffer| then end else |buffer|;
      ok := ProcessRange(buffer, offset, stop);
      ok := ok && stop == end;
    }

    /** `process(b)` after the bytes `xs`, as one more step of their fold. */
    method Feed(b: byte, ghost start: Trace, ghost xs: seq<byte>, ghost log: seq<Event>, ghost sent: seq<Delivery>)
        returns (ok: bool)
      requires var t := Resume(start, xs);
        t.ok && current == t.last && published == log + t.events && deliveries == sent + DeliverAll(handlers, t.events)
      modifies this
      ensures var t := Resume(start, xs + [b]);
        current == t.last && published == log + t.events && ok == t.ok
        && handlers == old(handlers) && deliveries == sent + DeliverAll(handlers, t.events)
    {
      ghost var before, delivered := published, deliveries;
      ghost var t := Resume(start, xs);
      ok := Process(b);
      ghost var added := published[|before|..];
      assert deliveries == delivered + DeliverAll(handlers, added);
      FeedOne(start, xs, b, log, before, published, current, ok);
      ghost var v := Resume(start, xs + [b]);
      assert v.events == t.events + added;
      DeliverAllAppend(handlers, t.events, added);
      ConcatAssociates(sent, DeliverAll(handlers, t.events), DeliverAll(handlers, added));
    }

    /** The loop over `buffer[from..to]`, all of whose indices are inside the array. */
    method ProcessRange(buffer: seq<byte>, from: nat, to: nat) returns (ok: bool)
      requires from <= to <= |buffer|
      modifies this
      ensures var t := Run(old(current), buffer[from..to]);
        current == t.last && published == old(published) + t.events && ok == t.ok
        && handlers == old(handlers)
        && deliveries == old(deliveries) + DeliverAll(handlers, t.events)
    {
      ghost var start := Trace(current, [], true);
      var i := from;
      while i < to
        invariant from <= i <= to
        invariant handlers == old(handlers)
        invariant var t := Resume(start, buffer[from..i]);
          t.ok && current == t.last && published == old(published) + t.events
          && deliveries == old(deliveries) + DeliverAll(handlers, t.events)
      {
        UnmaskedByte(buffer[i]);
        var stepped := Feed(And(SignedByte(buffer[i]), 0xFF), start, buffer[from..i], old(published), old(deliveries));
        SliceExtend(buffer, from, i);
        if !stepped {
          StoppedSlice(start, buffer, from, i + 1, to);
          return false;
        }
        i := i + 1;
      }
      return true;
    }
  }
}
