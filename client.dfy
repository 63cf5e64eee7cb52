/**
 * The client (KuruboClient.kt), its pins (FirmataPin.kt) and its two-wire
 * device proxies (TwoWireDevice.kt). The client encodes outbound commands onto
 * the transport, one flush per command, and runs the start-up handshake from
 * the events the parser publishes: capabilities, then one pin-state query per
 * pin, then the analog mapping, then ready. Each event handler is a method
 * here; the thread pool that runs them, the locks, the atomics and the futures
 * are not modelled, so every method runs to completion on its own.
 *
 * Listener calls are recorded in a `Notices` log rather than made. A set of
 * listeners is called in no particular order, so a notice names the whole set.
 * An exception is a `Status` of `Thrown`; what the method changed before it
 * threw stays changed, as in the source.
 */
module Client {
  import opened Bitwise
  import opened FirmataProtocol
  import opened Wrappers
  import opened PinModes
  import opened Boards
  import opened Transport
  import opened Machine
  import Commands

  /** A registered listener, by identity. */
  type ListenerId = nat

  /** One round of listener calls. */
  datatype Notice =
    | PinChange(listeners: set<ListenerId>, pin: int32)
    | ModeChange(listeners: set<ListenerId>, pin: int32)
    | ValueChange(listeners: set<ListenerId>, pin: int32)
    | Start(listeners: set<ListenerId>)
    | Stop(listeners: set<ListenerId>)
    | MessageReceive(listeners: set<ListenerId>, message: string)
    | TwoWireReceive(listeners: set<ListenerId>, address: int32, register: int32, data: seq<int32>)

  /** The exceptions the modelled code raises. */
  datatype Failure =
    | UnsupportedPinMode   // UnsupportedPinModeException
    | InvalidPinWrite      // InvalidPinWriteException
    | NullPointer          // `!!` on a missing pin, or a null `Int` from an empty queue
    | IllegalArgument      // a failed `require`
    | Interrupted          // the start-up wait timing out

  datatype Status = Done | Thrown(failure: Failure)

  /** A reply as `askSync` would hand it back. */
  datatype Reply = Reply(address: int32, register: int32, data: seq<int32>)

  /** The listener calls made so far, in order. */
  class Notices {
    var sent: seq<Notice>

    constructor()
      ensures sent == []
    {
      sent := [];
    }

    method Notify(n: Notice)
      modifies this
      ensures sent == old(sent) + [n]
    {
      sent := sent + [n];
    }
  }

  // ---------------------------------------------------------------------------
  // Several commands in a row, each written and then flushed

  /**
   * The transport's written values and flush points after each of `frames`
   * is written and then flushed, in turn, starting from `w0` and `f0`.
   */
  function Replay(w0: seq<int32>, f0: seq<nat>, frames: seq<seq<int32>>): (r: (seq<int32>, seq<nat>))
    ensures |r.1| == |f0| + |frames|
  {
    if frames == [] then (w0, f0)
    else
      var before := Replay(w0, f0, frames[..|frames| - 1]);
      var w := before.0 + frames[|frames| - 1];
      (w, before.1 + [|w|])
  }

  /** The values of several commands, one after the other. */
  function Flat(frames: seq<seq<int32>>): seq<int32> {
    if frames == [] then [] else Flat(frames[..|frames| - 1]) + frames[|frames| - 1]
  }

  /**
   * What a replay writes is the commands' values one after the other, and each
   * flush falls at the end of its command.
   */
  lemma {:induction false} ReplayWrites(w0: seq<int32>, f0: seq<nat>, frames: seq<seq<int32>>)
    ensures Replay(w0, f0, frames).0 == w0 + Flat(frames)
    ensures forall k :: 1 <= k <= |frames| ==> Replay(w0, f0, frames).1[|f0| + k - 1] == |w0| + |Flat(frames[..k])|
    ensures Replay(w0, f0, frames).1[..|f0|] == f0
  {
    if frames != [] {
      var n := |frames| - 1;
      var init := frames[..n];
      ReplayWrites(w0, f0, init);
      ConcatAssociates(w0, Flat(init), frames[n]);
      assert frames[..n + 1] == frames;
      forall k | 1 <= k <= n
        ensures Replay(w0, f0, frames).1[|f0| + k - 1] == |w0| + |Flat(frames[..k])|
      {
        assert init[..k] == frames[..k];
      }
    }
  }

  /** The transport received exactly `frames` since it held `w0` and had flushed at `f0`. */
  ghost predicate Sent(t: Transport, w0: seq<int32>, f0: seq<nat>, frames: seq<seq<int32>>)
    reads t
  {
    (t.written, t.flushes) == Replay(w0, f0, frames)
  }

  /** One more flushed command extends `Sent` by that command. */
  lemma SentNext(w0: seq<int32>, f0: seq<nat>, frames: seq<seq<int32>>, frame: seq<int32>, w: seq<int32>, f: seq<nat>)
    requires (w, f) == Replay(w0, f0, frames)
    ensures (w + frame, f + [|w + frame|]) == Replay(w0, f0, frames + [frame])
  {
    assert (frames + [frame])[..|frames|] == frames;
  }

  /** One more round of the report loop. */
  lemma ReportsNext(command: int32, enabled: bool, k: nat, w0: seq<int32>, w: seq<int32>)
    requires k < 16 && 0 <= command < 0x100 && command % 0x10 == 0
    requires w == w0 + Commands.Reports(command, enabled, k)
    ensures w + [Or(command, k)] + [Commands.Flag(enabled)] == w0 + Commands.Reports(command, enabled, k + 1)
  {
    Commands.OrLowNibble(command, k);
    ConcatAssociates(w0, Commands.Reports(command, enabled, k), [Or(command, k), Commands.Flag(enabled)]);
  }

  /** The writes of a frame, head, then body, then tail, make up the whole frame. */
  lemma FrameAround(w0: seq<int32>, head: seq<int32>, body: seq<int32>, tail: seq<int32>)
    ensures w0 + head + body + tail == w0 + (head + body + tail)
  {
    ConcatAssociates(w0, head, body);
    ConcatAssociates(w0, head + body, tail);
  }

  /** Four single writes in a row. */
  lemma FourWrites(w0: seq<int32>, a: int32, b: int32, c: int32, d: int32)
    ensures w0 + [a] + [b] + [c] + [d] == w0 + [a, b, c, d]
  {
    ConcatAssociates(w0, [a], [b]);
    ConcatAssociates(w0, [a, b], [c]);
    ConcatAssociates(w0, [a, b, c], [d]);
  }

  /** The conditional writes of the higher 7-bit groups. */
  lemma HigherGroupsWritten(value: int32, w1: seq<int32>, w: seq<int32>)
    requires w == w1 + (if value > 0x0000_4000 then [Commands.Group7(value, 14)] else [])
                    + (if value > 0x0020_0000 then [Commands.Group7(value, 21)] else [])
                    + (if value > 0x1000_0000 then [Commands.Group7(value, 28)] else [])
    ensures w == w1 + Commands.HigherGroups(value)
  {
    var g14: seq<int32> := if value > 0x0000_4000 then [Commands.Group7(value, 14)] else [];
    var g21: seq<int32> := if value > 0x0020_0000 then [Commands.Group7(value, 21)] else [];
    var g28: seq<int32> := if value > 0x1000_0000 then [Commands.Group7(value, 28)] else [];
    FrameAround(w1, g14, g21, g28);
  }

  /** One more byte of a payload, sent as its two 7-bit groups. */
  lemma PairsNext(start: seq<int32>, bytes: seq<int8>, i: nat, w: seq<int32>)
    requires i < |bytes| && w == start + Commands.Pairs(bytes[..i])
    ensures w + [Lsb7(bytes[i]), Msb7(bytes[i])] == start + Commands.Pairs(bytes[..i + 1])
  {
    assert bytes[..i + 1][..i] == bytes[..i];
    ConcatAssociates(start, Commands.Pairs(bytes[..i]), Commands.TwoBytes(bytes[i]));
  }

  // ---------------------------------------------------------------------------
  // The port byte of an OUTPUT write

  /** `index / 8`: the port of a pin, truncating toward zero. */
  function PortOf(index: int32): int32 {
    Quot(index, 8)
  }

  /** `1 shl (index % 8)` shifts by `index % 8` (a remainder with the sign of `index`) masked to 0 .. 31. */
  function ShiftOf(index: int32): (d: nat)
    ensures d < 32
    ensures index >= 0 ==> d == index % 8
  {
    (index - 8 * Quot(index, 8)) % 32
  }

  /** `portId * 8 + it`, with `Int` wrap-around. */
  function PortKey(portId: int32, i: nat): int32 {
    Wrap(portId * 8 + i)
  }

  /** The number whose bit i is `on[i]`. */
  function PortSum(on: seq<bool>): (s: nat)
    ensures s < Pow2(|on|)
  {
    if on == [] then 0
    else
      var n := |on| - 1;
      PortSum(on[..n]) + (if on[n] then Pow2(n) else 0)
  }

  /** Bit k of `PortSum(on)` is `on[k]`. */
  lemma {:induction false} PortSumBit(on: seq<bool>, k: nat)
    requires k < |on|
    ensures TestBit(PortSum(on), k) == on[k]
  {
    var n := |on| - 1;
    var init := on[..n];
    var s := PortSum(init);
    if k == n {
      var c := if on[n] then 1 else 0;
      assert PortSum(on) == Pow2(n) * c + s;
      DivUnique(PortSum(on), Pow2(n), c, s);
    } else {
      PortSumBit(init, k);
      if on[n] {
        TestBitAddPow2(s, k, n);
      }
    }
  }

  /** Changing one entry of `on` changes `PortSum(on)` by that entry's power of two. */
  lemma {:induction false} PortSumUpdate(on: seq<bool>, d: nat, b: bool)
    requires d < |on|
    ensures PortSum(on[d := b]) == PortSum(on) - (if on[d] then Pow2(d) else 0) + (if b then Pow2(d) else 0)
  {
    var n := |on| - 1;
    var upd := on[d := b];
    if d == n {
      assert upd[..n] == on[..n];
    } else {
      assert upd[..n] == on[..n][d := b];
      PortSumUpdate(on[..n], d, b);
    }
  }

  /**
   * The byte an OUTPUT write sends for its port: bit i is whether pin i of the
   * port is on, except the written pin's own bit, which is `isOn`. A shift
   * distance past the byte (only a negative pin index gives one) sets a bit
   * above it instead, or clears nothing.
   */
  function PortByte(on: seq<bool>, d: nat, isOn: bool): int32
    requires |on| == 8 && d < 32
  {
    Pow2Values();
    Pow2Monotone(8, 31);
    Pow2Int();
    if d < 8 then PortSum(on[d := isOn])
    else if isOn then Wrap(PortSum(on) + Pow2(d))
    else PortSum(on)
  }

  /** The bits of `PortByte` for a pin with a non-negative index. */
  lemma PortByteBits(on: seq<bool>, d: nat, isOn: bool, i: nat)
    requires |on| == 8 && d < 8 && i < 8
    ensures 0 <= PortByte(on, d, isOn) < 0x100
    ensures BitAt(PortByte(on, d, isOn), i) == if i == d then isOn else on[i]
  {
    Pow2Values();
    var upd := on[d := isOn];
    PortSumBit(upd, i);
  }

  /** `portValue or bit` / `portValue and bit.inv()` over the port's bits computes `PortByte`. */
  lemma ForcedBit(on: seq<bool>, d: nat, isOn: bool)
    requires |on| == 8 && d < 32
    ensures PortSum(on) < 0x100
    ensures (if isOn then Or(PortSum(on), Shl(1, d)) else And(PortSum(on), Inv(Shl(1, d)))) == PortByte(on, d, isOn)
  {
    Pow2Values();
    if d < 8 {
      ForcedBitInPort(on, d, isOn);
    } else {
      ForcedBitPastPort(on, d, isOn);
    }
  }

  lemma ForcedBitInPort(on: seq<bool>, d: nat, isOn: bool)
    requires |on| == 8 && d < 8
    ensures PortSum(on) < 0x100
    ensures (if isOn then Or(PortSum(on), Shl(1, d)) else And(PortSum(on), Inv(Shl(1, d)))) == PortByte(on, d, isOn)
  {
    Pow2Values();
    var s := PortSum(on);
    PortSumBit(on, d);
    PortSumUpdate(on, d, isOn);
    if isOn {
      OrShlOne(s, d);
    } else {
      AndInvShlOne(s, d);
    }
  }

  lemma ForcedBitPastPort(on: seq<bool>, d: nat, isOn: bool)
    requires |on| == 8 && 8 <= d < 32
    ensures PortSum(on) < 0x100
    ensures (if isOn then Or(PortSum(on), Shl(1, d)) else And(PortSum(on), Inv(Shl(1, d)))) == PortByte(on, d, isOn)
  {
    Pow2Values();
    var s := PortSum(on);
    Pow2Monotone(8, d);
    DivUnique(s, Pow2(d), 0, s);
    assert !TestBit(s, d);
    if !isOn {
      AndInvShlOne(s, d);
    } else {
      OrShlOne(s, d);
      Pow2Int();
      if d == 31 {
        assert Wrap(s + Pow2(d)) == s - TWO_31 by {
          DivUnique(s + TWO_31, TWO_32, 0, s + TWO_31);
        }
      } else {
        Pow2Monotone(d, 30);
        assert Pow2(31) == 2 * Pow2(30);
        assert Wrap(s + Pow2(d)) == s + Pow2(d);
      }
    }
  }

  /** Adding the next pin of the port: `portValue or (1 shl it)` when it is on, nothing when it is off. */
  lemma PortStep(on: seq<bool>, k: nat)
    requires |on| == k < 8
    ensures PortSum(on) < 0x80
    ensures Or(PortSum(on), Shl(1, k)) == PortSum(on + [true])
    ensures PortSum(on + [false]) == PortSum(on)
  {
    Pow2Values();
    Pow2Monotone(k, 7);
    var s := PortSum(on);
    assert (on + [true])[..k] == on;
    assert (on + [false])[..k] == on;
    DivUnique(s, Pow2(k), 0, s);
    OrShlOne(s, k);
  }

  /** Whether a pin counts as on in its port: OUTPUT with a positive value. */
  predicate PinOn(p: FirmataPin)
    reads p
  {
    p.mode == Output && p.value > 0
  }

  /** Every pin of the port is among the client's found pins. */
  predicate PortPresent(c: KuruboClient, portId: int32)
    reads c
  {
    forall i :: 0 <= i < 8 ==> PortKey(portId, i) in c.foundPins
  }

  /** Whether each of the first n pins of the port is on. */
  function PortLits(c: KuruboClient, portId: int32, n: nat): (on: seq<bool>)
    requires n <= 8 && forall i :: 0 <= i < n ==> PortKey(portId, i) in c.foundPins
    reads c, c.foundPins.Values
    ensures |on| == n
    ensures forall i :: 0 <= i < n ==> on[i] == PinOn(c.foundPins[PortKey(portId, i)])
  {
    if n == 0 then [] else PortLits(c, portId, n - 1) + [PinOn(c.foundPins[PortKey(portId, n - 1)])]
  }

  /** One more pin of the port read into the port byte. */
  lemma ReadStep(c: KuruboClient, portId: int32, it: nat, v: int)
    requires it < 8 && forall i :: 0 <= i < it + 1 ==> PortKey(portId, i) in c.foundPins
    requires v == PortSum(PortLits(c, portId, it))
    ensures v < 0x80
    ensures (if PinOn(c.foundPins[PortKey(portId, it)]) then Or(v, Shl(1, it)) else v)
            == PortSum(PortLits(c, portId, it + 1))
  {
    PortStep(PortLits(c, portId, it), it);
    assert PortLits(c, portId, it + 1) == PortLits(c, portId, it) + [PinOn(c.foundPins[PortKey(portId, it)])];
  }

  // ---------------------------------------------------------------------------

  class KuruboClient {
    const board: Board
    const transport: Transport
    const log: Notices
    var listeners: set<ListenerId>
    /** `pinStateRequestQueue`: pins still waiting for their state query. */
    var queue: seq<int32>
    var started: bool
    var ready: bool
    var initializedPins: int32
    var analogMapping: map<int32, int32>
    var foundPins: map<int32, FirmataPin>
    var longestDelay: int32
    var devices: map<int32, TwoWireDevice>

    /** Every pin and device belongs to this client under its own index or address. */
    ghost predicate Valid()
      reads this
    {
      longestDelay >= 0
      && (forall k :: k in foundPins ==> foundPins[k].firmata == this && foundPins[k].index == k)
      && (forall a :: a in devices ==> devices[a].master == this && devices[a].address == a)
    }

    constructor(board: Board, transport: Transport)
      ensures Valid() && fresh(log) && log.sent == []
      ensures this.board == board && this.transport == transport
      ensures listeners == {} && queue == [] && !started && !ready && initializedPins == 0
      ensures analogMapping == map[] && foundPins == map[] && longestDelay == 0 && devices == map[]
    {
      this.board := board;
      this.transport := transport;
      log := new Notices();
      listeners := {};
      queue := [];
      started, ready := false, false;
      initializedPins := 0;
      analogMapping := map[];
      foundPins := map[];
      longestDelay := 0;
      devices := map[];
    }

    // -------------------------------------------------------------------------
    // Outbound commands

    method AnalogMapping()
      modifies transport
      ensures transport.written == old(transport.written) + Commands.AnalogMappingQuery()
      ensures transport.flushes == old(transport.flushes) + [|transport.written|]
    {
      transport.Write(START_SYSEX);
      transport.Write(ANALOG_MAPPING_QUERY);
      transport.Write(END_SYSEX);
      transport.Flush();
    }

    method AnalogWrite(pin: int32, value: int32)
      modifies transport
      ensures transport.written == old(transport.written) + Commands.AnalogWrite(pin, value)
      ensures transport.flushes == old(transport.flushes) + [|transport.written|]
    {
      ghost var w0 := transport.written;
      if pin <= 15 {
        transport.Write(Or(ANALOG_MESSAGE, Commands.Nibble(pin)));
        transport.SendValueAsTwo7bitBytes(value);
        assert transport.written == w0 + Commands.AnalogWrite(pin, value) by {
          ConcatAssociates(w0, [Or(ANALOG_MESSAGE, Commands.Nibble(pin))], Commands.TwoBytes(value));
        }
      } else {
        ghost var head := [START_SYSEX, EXTENDED_ANALOG, pin] + Commands.TwoBytes(value);
        transport.Write(START_SYSEX);
        transport.Write(EXTENDED_ANALOG);
        transport.Write(pin);
        transport.SendValueAsTwo7bitBytes(value);
        assert transport.written == w0 + head by {
          ConcatAssociates(w0, [START_SYSEX], [EXTENDED_ANALOG]);
          ConcatAssociates(w0, [START_SYSEX, EXTENDED_ANALOG], [pin]);
          ConcatAssociates(w0, [START_SYSEX, EXTENDED_ANALOG, pin], Commands.TwoBytes(value));
        }
        ghost var w1 := transport.written;
        if value > 0x0000_4000 {
          transport.Write(Commands.Group7(value, 14));
        }
        if value > 0x0020_0000 {
          transport.Write(Commands.Group7(value, 21));
        }
        if value > 0x1000_0000 {
          transport.Write(Commands.Group7(value, 28));
        }
        assert transport.written == w1 + Commands.HigherGroups(value) by {
          HigherGroupsWritten(value, w1, transport.written);
        }
        transport.Write(END_SYSEX);
        assert transport.written == w0 + Commands.AnalogWrite(pin, value) by {
          FrameAround(w0, head, Commands.HigherGroups(value), [END_SYSEX]);
        }
      }
      transport.Flush();
    }

    method Capability()
      modifies transport
      ensures transport.written == old(transport.written) + Commands.CapabilityQuery()
      ensures transport.flushes == old(transport.flushes) + [|transport.written|]
    {
      transport.Write(START_SYSEX);
      transport.Write(CAPABILITY_QUERY);
      transport.Write(END_SYSEX);
      transport.Flush();
    }

    method DigitalWrite(portId: int32, value: int32)
      modifies transport
      ensures transport.written == old(transport.written) + Commands.DigitalWrite(portId, value)
      ensures transport.flushes == old(transport.flushes) + [|transport.written|]
    {
      transport.Write(Or(DIGITAL_MESSAGE, Commands.Nibble(portId)));
      transport.SendValueAsTwo7bitBytes(value);
      transport.Flush();
    }

    method RequestFirmware()
      modifies transport
      ensures transport.written == old(transport.written) + Commands.FirmwareQuery()
      ensures transport.flushes == old(transport.flushes) + [|transport.written|]
    {
      transport.Write(START_SYSEX);
      transport.Write(REPORT_FIRMWARE);
      transport.Write(END_SYSEX);
      transport.Flush();
    }

    method PinState(pin: int32)
      modifies transport
      ensures transport.written == old(transport.written) + Commands.PinStateQuery(pin)
      ensures transport.flushes == old(transport.flushes) + [|transport.written|]
    {
      transport.Write(START_SYSEX);
      transport.Write(PIN_STATE_QUERY);
      transport.Write(pin);
      transport.Write(END_SYSEX);
      transport.Flush();
    }

    method AnalogPinReport(pin: int32, enabled: bool)
      modifies transport
      ensures transport.written == old(transport.written) + Commands.AnalogPinReport(board, pin, enabled)
      ensures transport.flushes == old(transport.flushes) + [|transport.written|]
    {
      transport.Write(Or(REPORT_ANALOG, PinToAnalogIndex(board, pin)));
      transport.Write(Commands.Flag(enabled));
      transport.Flush();
    }

    /** `repeat(16) { write(command or it); write(flag) }`, then a flush: the loop `analogReport` and `digitalReport` share. */
    method ReportAll(command: int32, enabled: bool)
      requires 0 <= command < 0x100 && command % 0x10 == 0
      modifies transport
      ensures transport.written == old(transport.written) + Commands.Reports(command, enabled, 16)
      ensures transport.flushes == old(transport.flushes) + [|transport.written|]
    {
      ghost var w0 := transport.written;
      assert w0 + Commands.Reports(command, enabled, 0) == w0;
      for k := 0 to 16
        invariant transport.written == w0 + Commands.Reports(command, enabled, k)
        invariant transport.flushes == old(transport.flushes)
      {
        ReportsNext(command, enabled, k, w0, transport.written);
        transport.Write(Or(command, k));
        transport.Write(Commands.Flag(enabled));
      }
      transport.Flush();
    }

    /** `analogReport(enabled)`: all sixteen analog channels, in order. */
    method AnalogReport(enabled: bool)
      modifies transport
      ensures transport.written == old(transport.written) + Commands.Reports(REPORT_ANALOG, enabled, 16)
      ensures transport.flushes == old(transport.flushes) + [|transport.written|]
    {
      ReportAll(REPORT_ANALOG, enabled);
    }

    method DigitalPinReport(pin: int32, enabled: bool)
      modifies transport
      ensures transport.written == old(transport.written) + Commands.DigitalPinReport(board, pin, enabled)
      ensures transport.flushes == old(transport.flushes) + [|transport.written|]
    {
      transport.Write(Or(REPORT_DIGITAL, PinToDigitalIndex(board, pin)));
      transport.Write(Commands.Flag(enabled));
      transport.Flush();
    }

    /** `digitalReport(enabled)`: all sixteen digital ports, in order. */
    method DigitalReport(enabled: bool)
      modifies transport
      ensures transport.written == old(transport.written) + Commands.Reports(REPORT_DIGITAL, enabled, 16)
      ensures transport.flushes == old(transport.flushes) + [|transport.written|]
    {
      ReportAll(REPORT_DIGITAL, enabled);
    }

    method SamplingInterval(interval: int32)
      modifies transport
      ensures transport.written == old(transport.written) + Commands.SamplingInterval(interval)
      ensures transport.flushes == old(transport.flushes) + [|transport.written|]
    {
      ghost var w0 := transport.written;
      var value := Commands.ClampInterval(interval);
      transport.Write(START_SYSEX);
      transport.Write(SAMPLING_INTERVAL);
      ConcatAssociates(w0, [START_SYSEX], [SAMPLING_INTERVAL]);
      transport.SendValueAsTwo7bitBytes(value);
      ConcatAssociates(w0, [START_SYSEX, SAMPLING_INTERVAL], Commands.TwoBytes(value));
      transport.Write(END_SYSEX);
      ConcatAssociates(w0, [START_SYSEX, SAMPLING_INTERVAL] + Commands.TwoBytes(value), [END_SYSEX]);
      transport.Flush();
    }

    method ServoConfig(pin: int32, minPulse: int32, maxPulse: int32)
      modifies transport
      ensures transport.written == old(transport.written) + Commands.ServoConfig(pin, minPulse, maxPulse)
      ensures transport.flushes == old(transport.flushes) + [|transport.written|]
    {
      ghost var w0 := transport.written;
      ghost var head: seq<int32> := [START_SYSEX, SERVO_CONFIG, pin];
      transport.Write(START_SYSEX);
      transport.Write(SERVO_CONFIG);
      transport.Write(pin);
      assert transport.written == w0 + head by {
        ConcatAssociates(w0, [START_SYSEX], [SERVO_CONFIG]);
        ConcatAssociates(w0, [START_SYSEX, SERVO_CONFIG], [pin]);
      }
      transport.SendValueAsTwo7bitBytes(minPulse);
      transport.SendValueAsTwo7bitBytes(maxPulse);
      transport.Write(END_SYSEX);
      assert transport.written == w0 + Commands.ServoConfig(pin, minPulse, maxPulse) by {
        ConcatAssociates(w0, head, Commands.TwoBytes(minPulse));
        ConcatAssociates(w0, head + Commands.TwoBytes(minPulse), Commands.TwoBytes(maxPulse));
        ConcatAssociates(w0, head + Commands.TwoBytes(minPulse) + Commands.TwoBytes(maxPulse), [END_SYSEX]);
      }
      transport.Flush();
    }

    method Mode(pin: int32, mode: PinMode)
      modifies transport
      ensures transport.written == old(transport.written) + Commands.ModeCommand(pin, mode)
      ensures transport.flushes == old(transport.flushes) + [|transport.written|]
    {
      transport.Write(SET_PIN_MODE);
      transport.Write(pin);
      transport.Write(Ordinal(mode));
      transport.Flush();
    }

    /** `sendValueAsTwo7bitBytes` on each byte in turn: the payload loop `text` and `twoWireWrite` share. */
    method SendPairs(bytes: seq<int8>)
      modifies transport
      ensures transport.written == old(transport.written) + Commands.Pairs(bytes)
      ensures transport.flushes == old(transport.flushes)
    {
      ghost var start := transport.written;
      assert start + Commands.Pairs(bytes[..0]) == start by {
        assert bytes[..0] == [];
      }
      for i := 0 to |bytes|
        invariant transport.written == start + Commands.Pairs(bytes[..i])
        invariant transport.flushes == old(transport.flushes)
      {
        PairsNext(start, bytes, i, transport.written);
        transport.SendValueAsTwo7bitBytes(bytes[i]);
      }
      assert bytes[..|bytes|] == bytes;
    }

    /** `text(message)`; the warning for a message over 15 characters is only logged. */
    method Text(message: string)
      modifies transport
      ensures transport.written == old(transport.written) + Commands.Text(message)
      ensures transport.flushes == old(transport.flushes) + [|transport.written|]
    {
      ghost var w0 := transport.written;
      ghost var head: seq<int32> := [START_SYSEX, STRING_DATA];
      transport.Write(START_SYSEX);
      transport.Write(STRING_DATA);
      assert transport.written == w0 + head by {
        ConcatAssociates(w0, [START_SYSEX], [STRING_DATA]);
      }
      var bytes := Commands.Ascii(message);
      SendPairs(bytes);
      transport.Write(END_SYSEX);
      assert transport.written == w0 + Commands.Text(message) by {
        FrameAround(w0, head, Commands.Pairs(bytes), [END_SYSEX]);
      }
      transport.Flush();
    }

    /** `twoWireConfig(delay)`: a delay outside 0 .. 255 fails its `require` before anything is written. */
    method TwoWireConfig(delay: int32) returns (status: Status)
      modifies transport
      ensures Commands.TwoWireConfig(delay).None? ==> status == Thrown(IllegalArgument) && unchanged(transport)
      ensures Commands.TwoWireConfig(delay).Some? ==>
        status == Done
        && transport.written == old(transport.written) + Commands.TwoWireConfig(delay).value
        && transport.flushes == old(transport.flushes) + [|transport.written|]
    {
      if delay < 0 || delay > 255 {
        return Thrown(IllegalArgument);
      }
      var delayLsb := And(delay, 0x7F);
      var delayMsb := if delay > 128 then 1 else 0;
      transport.Write(START_SYSEX);
      transport.Write(TWO_WIRE_CONFIG);
      transport.Write(delayLsb);
      transport.Write(delayMsb);
      transport.Write(END_SYSEX);
      transport.Flush();
      return Done;
    }

    method TwoWireRead(address: int32, register: int32, bytesToRead: int32, continuous: bool)
      modifies transport
      ensures transport.written == old(transport.written) + Commands.TwoWireRead(address, register, bytesToRead, continuous)
      ensures transport.flushes == old(transport.flushes) + [|transport.written|]
    {
      ghost var w0 := transport.written;
      ghost var head: seq<int32> := [START_SYSEX, TWO_WIRE_REQUEST, address,
                                     if continuous then TWO_WIRE_READ_CONTINUOUS else TWO_WIRE_READ];
      transport.Write(START_SYSEX);
      transport.Write(TWO_WIRE_REQUEST);
      transport.Write(address);
      transport.Write(if continuous then TWO_WIRE_READ_CONTINUOUS else TWO_WIRE_READ);
      assert transport.written == w0 + head by {
        FourWrites(w0, START_SYSEX, TWO_WIRE_REQUEST, address, if continuous then TWO_WIRE_READ_CONTINUOUS else TWO_WIRE_READ);
      }
      ghost var registerPair := if register != Commands.REGISTER_NOT_SET then Commands.TwoBytes(register) else [];
      if register != Commands.REGISTER_NOT_SET {
        transport.SendValueAsTwo7bitBytes(register);
      }
      assert transport.written == w0 + (head + registerPair) by {
        ConcatAssociates(w0, head, registerPair);
      }
      transport.SendValueAsTwo7bitBytes(bytesToRead);
      transport.Write(END_SYSEX);
      assert transport.written == w0 + Commands.TwoWireRead(address, register, bytesToRead, continuous) by {
        FrameAround(w0, head + registerPair, Commands.TwoBytes(bytesToRead), [END_SYSEX]);
      }
      transport.Flush();
    }

    method TwoWireStopContinuous(address: int32)
      modifies transport
      ensures transport.written == old(transport.written) + Commands.TwoWireStopContinuous(address)
      ensures transport.flushes == old(transport.flushes) + [|transport.written|]
    {
      transport.Write(START_SYSEX);
      transport.Write(TWO_WIRE_REQUEST);
      transport.Write(address);
      transport.Write(TWO_WIRE_STOP_READ_CONTINUOUS);
      transport.Write(END_SYSEX);
      transport.Flush();
    }

    /** `twoWireWrite(address, data)`: the header is flushed on its own, then the data and the terminator. */
    method TwoWireWrite(address: int32, data: seq<int8>)
      modifies transport
      ensures transport.written == old(transport.written) + Commands.TwoWireWrite(address, data)
      ensures transport.flushes
           == old(transport.flushes) + [|old(transport.written)| + 4, |transport.written|]
    {
      ghost var w0 := transport.written;
      transport.Write(START_SYSEX);
      transport.Write(TWO_WIRE_REQUEST);
      transport.Write(address);
      transport.Write(TWO_WIRE_WRITE);
      assert transport.written == w0 + Commands.TwoWireWriteHeader(address) by {
        FourWrites(w0, START_SYSEX, TWO_WIRE_REQUEST, address, TWO_WIRE_WRITE);
      }
      transport.Flush();
      SendPairs(data);
      transport.Write(END_SYSEX);
      assert transport.written == w0 + Commands.TwoWireWrite(address, data) by {
        FrameAround(w0, Commands.TwoWireWriteHeader(address), Commands.Pairs(data), [END_SYSEX]);
      }
      transport.Flush();
    }

    // -------------------------------------------------------------------------
    // Life cycle, listeners and lookups

    /** `run()`: only the first call starts; it asks for the firmware. */
    method Run()
      modifies this`started, transport
      ensures started
      ensures old(started) ==> unchanged(transport)
      ensures !old(started) ==>
                transport.written == old(transport.written) + Commands.FirmwareQuery()
                && transport.flushes == old(transport.flushes) + [|transport.written|]
    {
      if !started {
        started := true;
        RequestFirmware();
      }
    }

    /**
     * `ensureInitializationIsDone()`: starts the client if needed, then waits
     * for the handshake. Nothing else runs while the model waits, so a client
     * that is not ready by then times out.
     */
    method EnsureInitializationIsDone() returns (status: Status)
      modifies this`started, transport
      ensures started
      ensures status == if ready then Done else Thrown(Interrupted)
      ensures old(started) ==> unchanged(transport)
      ensures !old(started) ==>
                transport.written == old(transport.written) + Commands.FirmwareQuery()
                && transport.flushes == old(transport.flushes) + [|transport.written|]
    {
      if !started {
        Run();
      }
      if !ready {
        return Thrown(Interrupted);
      }
      return Done;
    }

    method AddListener(l: ListenerId)
      modifies this`listeners
      ensures listeners == old(listeners) + {l}
    {
      listeners := listeners + {l};
    }

    method RemoveListener(l: ListenerId)
      modifies this`listeners
      ensures listeners == old(listeners) - {l}
    {
      listeners := listeners - {l};
    }

    function PinCount(): (n: nat)
      reads this
      ensures n == |foundPins.Keys|
    {
      |foundPins|
    }

    /** `pinAt(index)`: `None` is the NullPointerException of `!!` on a pin that was not found. */
    function PinAt(index: int32): (r: Option<FirmataPin>)
      requires Valid()
      reads this
      ensures r.Some? <==> index in foundPins
      ensures r.Some? ==> r.value.index == index && r.value.firmata == this && r.value == foundPins[index]
    {
      if index in foundPins then Some(foundPins[index]) else None
    }

    /** `pinChanged(pin)`: the client's listeners hear that the pin changed. */
    method PinChanged(pin: FirmataPin)
      modifies log
      ensures log.sent == old(log.sent) + [PinChange(listeners, pin.index)]
    {
      log.Notify(PinChange(listeners, pin.index));
    }

    /**
     * `twoWireDelay(delay)`: the longest delay asked for so far only grows; a
     * longer one is recorded and then sent, and a delay over 255 is recorded
     * before the configuration refuses it.
     */
    method TwoWireDelay(delay: int32) returns (status: Status)
      requires longestDelay >= 0
      modifies this`longestDelay, transport
      ensures longestDelay == if delay > old(longestDelay) then delay else old(longestDelay)
      ensures delay <= old(longestDelay) ==> status == Done && unchanged(transport)
      ensures delay > old(longestDelay) ==>
                (if delay > 255 then status == Thrown(IllegalArgument) && unchanged(transport)
                 else status == Done
                      && transport.written == old(transport.written) + Commands.DelayFrame(delay)
                      && transport.flushes == old(transport.flushes) + [|transport.written|])
    {
      status := Done;
      var soFar := longestDelay;
      while soFar < delay
        invariant soFar == longestDelay
        invariant longestDelay == old(longestDelay) || (longestDelay == delay && delay > old(longestDelay))
        invariant longestDelay == old(longestDelay) ==> unchanged(transport) && status == Done
        invariant longestDelay != old(longestDelay) ==>
                    delay <= 255 && status == Done
                    && transport.written == old(transport.written) + Commands.DelayFrame(delay)
                    && transport.flushes == old(transport.flushes) + [|transport.written|]
        decreases delay - soFar
      {
        if longestDelay == soFar {
          longestDelay := delay;
          status := TwoWireConfig(delay);
          if status.Thrown? {
            return;
          }
        }
        soFar := longestDelay;
      }
    }

    /**
     * `twoWireDevice(address)`. The guard `twoWireDevices.contains(address)`
     * is `ConcurrentHashMap.contains`, which looks among the values, never the
     * keys, so it is always false: every call makes a new device, replacing
     * the one registered at the address, and sends the longest delay again.
     * The device is returned only when that configuration does not throw.
     */
    method TwoWireDeviceAt(address: int32) returns (device: Option<TwoWireDevice>, status: Status)
      requires Valid()
      modifies this`devices, transport
      ensures Valid()
      ensures address in devices && fresh(devices[address]) && devices == old(devices)[address := devices[address]]
      ensures devices[address].callbacks == map[] && devices[address].subscribers == {} && !devices[address].receiving
      ensures longestDelay <= 255 ==>
                status == Done && device == Some(devices[address])
                && transport.written == old(transport.written) + Commands.DelayFrame(longestDelay)
                && transport.flushes == old(transport.flushes) + [|transport.written|]
      ensures longestDelay > 255 ==> status == Thrown(IllegalArgument) && device == None && unchanged(transport)
    {
      var d := new TwoWireDevice(this, address);
      devices := devices[address := d];
      status := TwoWireConfig(longestDelay);
      device := if status == Done then Some(d) else None;
    }

    /** `close()`: reporting off everywhere, then `onStop` to every listener, which are then dropped. */
    method Close()
      modifies this`listeners, transport, log
      ensures listeners == {}
      ensures transport.written
           == old(transport.written) + Commands.Reports(REPORT_ANALOG, false, 16) + Commands.Reports(REPORT_DIGITAL, false, 16)
      ensures transport.flushes == old(transport.flushes) + [|old(transport.written)| + 32, |transport.written|]
      ensures log.sent == old(log.sent) + [Stop(old(listeners))]
    {
      AnalogReport(false);
      DigitalReport(false);
      log.Notify(Stop(listeners));
      listeners := {};
    }

    // -------------------------------------------------------------------------
    // The handshake and the inbound events

    /** The firmware report: the capabilities are asked for next. */
    method OnFirmware()
      modifies transport
      ensures transport.written == old(transport.written) + Commands.CapabilityQuery()
      ensures transport.flushes == old(transport.flushes) + [|transport.written|]
    {
      Capability();
    }

    /**
     * One pin's capabilities: a new pin with those modes replaces any found
     * before at that index; a pin with no modes counts as initialised, any
     * other waits in the queue for its state query.
     */
    method OnPinCapability(pin: int32, modes: set<PinMode>)
      requires Valid()
      modifies this`foundPins, this`initializedPins, this`queue
      ensures Valid()
      ensures pin in foundPins && foundPins == old(foundPins)[pin := foundPins[pin]]
      ensures fresh(foundPins[pin]) && foundPins[pin].supportedModes == modes
      ensures foundPins[pin].mode == Unsupported && foundPins[pin].value == 0 && foundPins[pin].listeners == {}
      ensures modes == {} ==> initializedPins == Wrap(old(initializedPins) + 1) && queue == old(queue)
      ensures modes != {} ==> initializedPins == old(initializedPins) && queue == old(queue) + [pin]
    {
      var p := new FirmataPin(this, pin);
      var rest := modes;
      while rest != {}
        invariant p.supportedModes + rest == modes && p.supportedModes !! rest
        invariant p.mode == Unsupported && p.value == 0 && p.listeners == {}
        invariant foundPins == old(foundPins) && initializedPins == old(initializedPins) && queue == old(queue)
        decreases rest
      {
        var m :| m in rest;
        p.AddSupportedMode(m);
        rest := rest - {m};
      }
      foundPins := foundPins[pin := p];
      if p.supportedModes == {} {
        initializedPins := Wrap(initializedPins + 1);
      } else {
        queue := queue + [pin];
      }
    }

    /**
     * The end of the capabilities: with every pin initialised the analog
     * mapping is asked for; otherwise the first queued pin's state is. An
     * empty queue then gives a null pin number, which throws.
     */
    method OnCapabilitiesFinished() returns (status: Status)
      modifies this`queue, transport
      ensures initializedPins == |foundPins| ==>
                status == Done && queue == old(queue)
                && transport.written == old(transport.written) + Commands.AnalogMappingQuery()
                && transport.flushes == old(transport.flushes) + [|transport.written|]
      ensures initializedPins != |foundPins| && old(queue) == [] ==>
                status == Thrown(NullPointer) && queue == [] && unchanged(transport)
      ensures initializedPins != |foundPins| && old(queue) != [] ==>
                status == Done && queue == old(queue)[1..]
                && transport.written == old(transport.written) + Commands.PinStateQuery(old(queue)[0])
                && transport.flushes == old(transport.flushes) + [|transport.written|]
    {
      if initializedPins == |foundPins| {
        AnalogMapping();
        return Done;
      }
      if queue == [] {
        return Thrown(NullPointer);
      }
      var next := queue[0];
      queue := queue[1..];
      PinState(next);
      return Done;
    }

    /**
     * One pin's state: a found pin takes the reported mode (its value is not
     * taken), the next queued pin is asked for, and the pin counts as
     * initialised; when that makes every found pin initialised, the analog
     * mapping is asked for. A pin that was not found is ignored.
     */
    method OnPinState(pin: int32, m: PinMode)
      requires Valid()
      modifies this`queue, this`initializedPins, transport, foundPins.Values
      ensures Valid() && foundPins == old(foundPins)
      ensures pin !in foundPins ==> unchanged(this) && unchanged(transport) && unchanged(foundPins.Values)
      ensures pin in foundPins ==>
                foundPins[pin].mode == m
                && foundPins[pin].value == old(foundPins[pin].value)
                && foundPins[pin].supportedModes == old(foundPins[pin].supportedModes)
                && foundPins[pin].listeners == old(foundPins[pin].listeners)
                && (forall k :: k in foundPins && k != pin ==> unchanged(foundPins[k]))
                && queue == (if old(queue) == [] then [] else old(queue)[1..])
                && initializedPins == Wrap(old(initializedPins) + 1)
                && Sent(transport, old(transport.written), old(transport.flushes),
                        (if old(queue) == [] then [] else [Commands.PinStateQuery(old(queue)[0])])
                        + (if initializedPins == |foundPins| then [Commands.AnalogMappingQuery()] else []))
    {
      if pin !in foundPins {
        return;
      }
      foundPins[pin].InitMode(m);
      NextPinState();
    }

    /**
     * The rest of the pin-state handler: the next queued pin is asked for, one
     * more pin counts as initialised, and the analog mapping is asked for once
     * every found pin is.
     */
    method NextPinState()
      modifies this`queue, this`initializedPins, transport
      ensures queue == (if old(queue) == [] then [] else old(queue)[1..])
      ensures initializedPins == Wrap(old(initializedPins) + 1)
      ensures Sent(transport, old(transport.written), old(transport.flushes),
                   (if old(queue) == [] then [] else [Commands.PinStateQuery(old(queue)[0])])
                   + (if initializedPins == |foundPins| then [Commands.AnalogMappingQuery()] else []))
    {
      ghost var w0, f0 := transport.written, transport.flushes;
      ghost var frames: seq<seq<int32>> := [];
      if queue != [] {
        var next := queue[0];
        queue := queue[1..];
        SentNext(w0, f0, frames, Commands.PinStateQuery(next), transport.written, transport.flushes);
        PinState(next);
        frames := frames + [Commands.PinStateQuery(next)];
      }
      initializedPins := Wrap(initializedPins + 1);
      if initializedPins == |foundPins| {
        SentNext(w0, f0, frames, Commands.AnalogMappingQuery(), transport.written, transport.flushes);
        AnalogMapping();
        frames := frames + [Commands.AnalogMappingQuery()];
      }
    }

    /** The analog mapping: merged into the known one, then the client is ready and its listeners hear `onStart`. */
    method OnAnalogMapping(mapping: map<int32, int32>)
      modifies this`analogMapping, this`ready, log
      ensures analogMapping == old(analogMapping) + mapping
      ensures ready
      ensures log.sent == old(log.sent) + [Start(listeners)]
    {
      analogMapping := analogMapping + mapping;
      ready := true;
      log.Notify(Start(listeners));
    }

    /** An analog value: it reaches the pin its channel maps to, if that pin is found and in ANALOG mode. */
    method OnAnalogMessage(channel: int32, v: int32)
      requires Valid()
      modifies foundPins.Values, log
      ensures Valid()
      ensures AnalogTarget(channel).None? ==> unchanged(foundPins.Values) && unchanged(log)
      ensures AnalogTarget(channel).Some? ==>
                var p := AnalogTarget(channel).value;
                p.value == v
                && p.mode == old(p.mode) && p.supportedModes == old(p.supportedModes) && p.listeners == old(p.listeners)
                && (forall q :: q in foundPins.Values && q != p ==> unchanged(q))
                && (v == old(p.value) ==> unchanged(log))
                && (v != old(p.value) ==>
                      log.sent == old(log.sent) + [PinChange(listeners, p.index), ValueChange(p.listeners, p.index)])
    {
      if channel in analogMapping {
        var index := analogMapping[channel];
        if index in foundPins {
          var p := foundPins[index];
          if p.mode == Analog {
            var _ := p.UpdateValue(v);
          }
        }
      }
    }

    /** The pin an analog channel's value goes to, if any. */
    function AnalogTarget(channel: int32): (r: Option<FirmataPin>)
      requires Valid()
      reads this, foundPins.Values
      ensures r.Some? ==> channel in analogMapping && analogMapping[channel] in foundPins
                          && r.value == foundPins[analogMapping[channel]] && r.value.mode == Analog
      ensures r.None? ==> channel !in analogMapping || analogMapping[channel] !in foundPins
                          || foundPins[analogMapping[channel]].mode != Analog
    {
      if channel in analogMapping && analogMapping[channel] in foundPins
         && foundPins[analogMapping[channel]].mode == Analog
      then Some(foundPins[analogMapping[channel]])
      else None
    }

    /** A digital pin's value: taken only by a found pin in INPUT or PULL_UP mode. */
    method OnDigitalMessage(pin: int32, v: int32)
      requires Valid()
      modifies foundPins.Values, log
      ensures Valid()
      ensures !(pin in foundPins && foundPins[pin].mode in {Input, PullUp}) ==> unchanged(foundPins.Values) && unchanged(log)
      ensures pin in foundPins && foundPins[pin].mode in {Input, PullUp} ==>
                foundPins[pin].value == v
                && foundPins[pin].mode == old(foundPins[pin].mode)
                && foundPins[pin].supportedModes == old(foundPins[pin].supportedModes)
                && foundPins[pin].listeners == old(foundPins[pin].listeners)
                && (forall k :: k in foundPins && k != pin ==> unchanged(foundPins[k]))
                && (v == old(foundPins[pin].value) ==> unchanged(log))
                && (v != old(foundPins[pin].value) ==>
                      log.sent == old(log.sent) + [PinChange(listeners, pin), ValueChange(foundPins[pin].listeners, pin)])
    {
      if pin in foundPins {
        var p := foundPins[pin];
        if p.mode == Input || p.mode == PullUp {
          var _ := p.UpdateValue(v);
        }
      }
    }

    /** A string from the board goes to every listener. */
    method OnString(message: string)
      modifies log
      ensures log.sent == old(log.sent) + [MessageReceive(listeners, message)]
    {
      log.Notify(MessageReceive(listeners, message));
    }

    /** A two-wire reply goes to the device at its address, if there is one. */
    method OnTwoWire(address: int32, register: int32, data: seq<int32>)
      requires Valid()
      modifies devices.Values, log
      ensures Valid()
      ensures address !in devices ==> unchanged(devices.Values) && unchanged(log)
      ensures address in devices ==>
                var d := devices[address];
                d.callbacks == old(d.callbacks) - {register}
                && d.subscribers == old(d.subscribers) && d.receiving == old(d.receiving)
                && (forall e :: e in devices.Values && e != d ==> unchanged(e))
                && log.sent == old(log.sent) + [TwoWireReceive(if register in old(d.callbacks) then {old(d.callbacks)[register]} else old(d.subscribers),
                                                              address, register, data)]
    {
      if address in devices {
        devices[address].OnReceive(register, data);
      }
    }
  }

  class FirmataPin {
    const firmata: KuruboClient
    const index: int32
    var mode: PinMode
    var value: int32
    var supportedModes: set<PinMode>
    var listeners: set<ListenerId>

    constructor(firmata: KuruboClient, index: int32)
      ensures this.firmata == firmata && this.index == index
      ensures mode == Unsupported && value == 0 && supportedModes == {} && listeners == {}
    {
      this.firmata := firmata;
      this.index := index;
      mode := Unsupported;
      value := 0;
      supportedModes := {};
      listeners := {};
    }

    method AddPinListener(l: ListenerId)
      modifies this`listeners
      ensures listeners == old(listeners) + {l}
    {
      listeners := listeners + {l};
    }

    method RemovePinListener(l: ListenerId)
      modifies this`listeners
      ensures listeners == old(listeners) - {l}
    {
      listeners := listeners - {l};
    }

    method RemoveAllPinListeners()
      modifies this`listeners
      ensures listeners == {}
    {
      listeners := {};
    }

    method AddSupportedMode(m: PinMode)
      modifies this`supportedModes
      ensures supportedModes == old(supportedModes) + {m}
    {
      supportedModes := supportedModes + {m};
    }

    /** `initMode(mode)`: set without a command or a notice, during the handshake. */
    method InitMode(m: PinMode)
      modifies this`mode
      ensures mode == m
    {
      mode := m;
    }

    method InitValue(v: int32)
      modifies this`value
      ensures value == v
    {
      value := v;
    }

    /**
     * `updateValue(value)`: a new value is stored and announced, first to the
     * client's listeners, then to the pin's own; the same value changes nothing.
     */
    method UpdateValue(v: int32) returns (changed: bool)
      modifies this`value, firmata.log
      ensures changed <==> v != old(value)
      ensures value == v
      ensures changed ==> firmata.log.sent
                          == old(firmata.log.sent) + [PinChange(firmata.listeners, index), ValueChange(listeners, index)]
      ensures !changed ==> unchanged(firmata.log)
    {
      if v == value {
        return false;
      }
      value := v;
      firmata.PinChanged(this);
      firmata.log.Notify(ValueChange(listeners, index));
      return true;
    }

    /**
     * `updateMode(mode, minPulse, maxPulse)`: an unsupported mode throws and
     * changes nothing; the current mode changes nothing; otherwise a servo is
     * configured first (its value becomes unknown, -1), the mode is sent and
     * set, announced, and the pin's state is queried.
     */
    method UpdateMode(newMode: PinMode, minPulse: int32, maxPulse: int32) returns (status: Status)
      modifies this`mode, this`value, firmata.transport, firmata.log
      ensures status == if newMode in supportedModes then Done else Thrown(UnsupportedPinMode)
      ensures newMode !in supportedModes || newMode == old(mode) ==>
                unchanged(this) && unchanged(firmata.transport) && unchanged(firmata.log)
      ensures newMode in supportedModes && newMode != old(mode) ==>
                mode == newMode
                && value == (if newMode == Servo then -1 else old(value))
                && Sent(firmata.transport, old(firmata.transport.written), old(firmata.transport.flushes),
                        ModeFrames(index, newMode, minPulse, maxPulse))
                && firmata.log.sent
                   == old(firmata.log.sent) + [PinChange(firmata.listeners, index), ModeChange(listeners, index)]
    {
      if newMode !in supportedModes {
        return Thrown(UnsupportedPinMode);
      }
      if mode == newMode {
        return Done;
      }
      ChangeMode(newMode, minPulse, maxPulse);
      return Done;
    }

    /** The change path of `updateMode`: a supported mode other than the current one. */
    method ChangeMode(newMode: PinMode, minPulse: int32, maxPulse: int32)
      requires newMode in supportedModes && newMode != mode
      modifies this`mode, this`value, firmata.transport, firmata.log
      ensures mode == newMode
      ensures value == (if newMode == Servo then -1 else old(value))
      ensures Sent(firmata.transport, old(firmata.transport.written), old(firmata.transport.flushes),
                   ModeFrames(index, newMode, minPulse, maxPulse))
      ensures firmata.log.sent
              == old(firmata.log.sent) + [PinChange(firmata.listeners, index), ModeChange(listeners, index)]
    {
      var t := firmata.transport;
      ghost var w0, f0, l0 := t.written, t.flushes, firmata.log.sent;
      ghost var frames: seq<seq<int32>> := [];
      assert Sent(t, w0, f0, frames) by {
        assert w0 + [] == w0 && f0 + [] == f0;
      }
      if newMode == Servo {
        firmata.ServoConfig(index, minPulse, maxPulse);
        assert Sent(t, w0, f0, [Commands.ServoConfig(index, minPulse, maxPulse)]) by {
          SentNext(w0, f0, [], Commands.ServoConfig(index, minPulse, maxPulse), w0, f0);
        }
        frames := [Commands.ServoConfig(index, minPulse, maxPulse)];
        value := -1;
      }
      ghost var w1, f1 := t.written, t.flushes;
      firmata.Mode(index, newMode);
      assert Sent(t, w0, f0, frames + [Commands.ModeCommand(index, newMode)]) by {
        SentNext(w0, f0, frames, Commands.ModeCommand(index, newMode), w1, f1);
      }
      frames := frames + [Commands.ModeCommand(index, newMode)];
      mode := newMode;
      firmata.PinChanged(this);
      firmata.log.Notify(ModeChange(listeners, index));
      assert firmata.log.sent == l0 + [PinChange(firmata.listeners, index), ModeChange(listeners, index)] by {
        ConcatAssociates(l0, [PinChange(firmata.listeners, index)], [ModeChange(listeners, index)]);
      }
      ghost var w2, f2 := t.written, t.flushes;
      firmata.PinState(index);
      assert Sent(t, w0, f0, frames + [Commands.PinStateQuery(index)]) by {
        SentNext(w0, f0, frames, Commands.PinStateQuery(index), w2, f2);
      }
      frames := frames + [Commands.PinStateQuery(index)];
      assert frames == ModeFrames(index, newMode, minPulse, maxPulse) by {
        var rest := [Commands.ModeCommand(index, newMode), Commands.PinStateQuery(index)];
        if newMode == Servo {
          assert frames == [Commands.ServoConfig(index, minPulse, maxPulse)] + rest;
        } else {
          assert frames == rest;
        }
      }
    }

    /** The `mode` setter: servos get the Arduino default pulse range, 544 .. 2400 microseconds. */
    method SetMode(newMode: PinMode) returns (status: Status)
      modifies this`mode, this`value, firmata.transport, firmata.log
      ensures status == if newMode in supportedModes then Done else Thrown(UnsupportedPinMode)
      ensures newMode !in supportedModes || newMode == old(mode) ==>
                unchanged(this) && unchanged(firmata.transport) && unchanged(firmata.log)
      ensures newMode in supportedModes && newMode != old(mode) ==>
                mode == newMode
                && value == (if newMode == Servo then -1 else old(value))
                && Sent(firmata.transport, old(firmata.transport.written), old(firmata.transport.flushes),
                        ModeFrames(index, newMode, 544, 2400))
                && firmata.log.sent
                   == old(firmata.log.sent) + [PinChange(firmata.listeners, index), ModeChange(listeners, index)]
    {
      status := UpdateMode(newMode, 544, 2400);
    }

    /** `servoMode(minPulse, maxPulse)` */
    method ServoMode(minPulse: int32, maxPulse: int32) returns (status: Status)
      modifies this`mode, this`value, firmata.transport, firmata.log
      ensures status == if Servo in supportedModes then Done else Thrown(UnsupportedPinMode)
      ensures Servo !in supportedModes || old(mode) == Servo ==>
                unchanged(this) && unchanged(firmata.transport) && unchanged(firmata.log)
      ensures Servo in supportedModes && old(mode) != Servo ==>
                mode == Servo && value == -1
                && Sent(firmata.transport, old(firmata.transport.written), old(firmata.transport.flushes),
                        ModeFrames(index, Servo, minPulse, maxPulse))
                && firmata.log.sent
                   == old(firmata.log.sent) + [PinChange(firmata.listeners, index), ModeChange(listeners, index)]
    {
      status := UpdateMode(Servo, minPulse, maxPulse);
    }

    /**
     * The loop of the OUTPUT branch of the `value` setter: the byte of port
     * `portId` as the client's found pins have it, bit i set for an OUTPUT
     * pin i of the port with a positive value; `found` is false when a pin of
     * the port is missing.
     */
    method ReadPort(portId: int32) returns (found: bool, portValue: int32)
      ensures found <==> PortPresent(firmata, portId)
      ensures found ==> portValue == PortSum(PortLits(firmata, portId, 8))
    {
      portValue := 0;
      assert PortLits(firmata, portId, 0) == [];
      for it := 0 to 8
        invariant forall i :: 0 <= i < it ==> PortKey(portId, i) in firmata.foundPins
        invariant portValue == PortSum(PortLits(firmata, portId, it))
      {
        var present;
        present, portValue := ReadPin(portId, it, portValue);
        if !present {
          return false, portValue;
        }
      }
      return true, portValue;
    }

    /** One round of `ReadPort`: pin `it` of the port adds its bit, or is missing. */
    method ReadPin(portId: int32, it: nat, portValue: int32) returns (present: bool, next: int32)
      requires it < 8 && forall i :: 0 <= i < it ==> PortKey(portId, i) in firmata.foundPins
      requires portValue == PortSum(PortLits(firmata, portId, it))
      ensures present <==> PortKey(portId, it) in firmata.foundPins
      ensures !present ==> !PortPresent(firmata, portId)
      ensures present ==> forall i :: 0 <= i < it + 1 ==> PortKey(portId, i) in firmata.foundPins
      ensures present ==> next == PortSum(PortLits(firmata, portId, it + 1))
    {
      var key := PortKey(portId, it);
      if key !in firmata.foundPins {
        return false, portValue;
      }
      assert forall i :: 0 <= i < it + 1 ==> PortKey(portId, i) in firmata.foundPins;
      var p := firmata.foundPins[key];
      ReadStep(firmata, portId, it, portValue);
      next := if PinOn(p) then Or(portValue, Shl(1, it)) else portValue;
      return true, next;
    }

    /**
     * The port write of the OUTPUT branch of the `value` setter: the byte of
     * the pin's port, read from the port's eight found pins with this pin's
     * bit forced to `isOn`, goes out as a DIGITAL_MESSAGE; a pin of the port
     * that is not found throws before anything is sent.
     */
    method WritePort(isOn: bool) returns (status: Status)
      modifies firmata.transport
      ensures !PortPresent(firmata, PortOf(index)) ==> status == Thrown(NullPointer) && unchanged(firmata.transport)
      ensures PortPresent(firmata, PortOf(index)) ==>
                status == Done
                && firmata.transport.written
                   == old(firmata.transport.written)
                      + Commands.DigitalWrite(PortOf(index),
                                              PortByte(PortLits(firmata, PortOf(index), 8), ShiftOf(index), isOn))
                && firmata.transport.flushes == old(firmata.transport.flushes) + [|firmata.transport.written|]
    {
      var portId := PortOf(index);
      var found, portValue := ReadPort(portId);
      if !found {
        return Thrown(NullPointer);
      }
      var on := PortLits(firmata, portId, 8);
      ForcedBit(on, ShiftOf(index), isOn);
      var bit := Shl(1, ShiftOf(index));
      portValue := if isOn then Or(portValue, bit) else And(portValue, Inv(bit));
      firmata.DigitalWrite(portId, portValue);
      return Done;
    }

    /**
     * The `value` setter. An OUTPUT pin stores 1 for a positive value and 0
     * otherwise, and a change sends its port's byte as a DIGITAL_MESSAGE,
     * built from the other pins of the port (a pin of the port that is not
     * found throws, after the value was stored and announced); an ANALOG, PWM
     * or SERVO pin stores the value and a change sends it as an analog write;
     * any other mode throws.
     */
    method SetValue(v: int32) returns (status: Status)
      modifies this`value, firmata.transport, firmata.log
      ensures mode !in {Output, Analog, Pwm, Servo} ==>
                status == Thrown(InvalidPinWrite) && unchanged(this) && unchanged(firmata.transport) && unchanged(firmata.log)
      ensures mode in {Analog, Pwm, Servo} ==>
                status == Done && value == v
                && (v == old(value) ==> unchanged(firmata.transport) && unchanged(firmata.log))
                && (v != old(value) ==>
                      firmata.transport.written == old(firmata.transport.written) + Commands.AnalogWrite(index, v)
                      && firmata.transport.flushes == old(firmata.transport.flushes) + [|firmata.transport.written|]
                      && firmata.log.sent
                         == old(firmata.log.sent) + [PinChange(firmata.listeners, index), ValueChange(listeners, index)])
      ensures mode == Output ==> value == (if v > 0 then 1 else 0)
      ensures mode == Output && value == old(value) ==>
                status == Done && unchanged(firmata.transport) && unchanged(firmata.log)
      ensures mode == Output && value != old(value) ==>
                firmata.log.sent
                == old(firmata.log.sent) + [PinChange(firmata.listeners, index), ValueChange(listeners, index)]
                && (!PortPresent(firmata, PortOf(index)) ==> status == Thrown(NullPointer) && unchanged(firmata.transport))
                && (PortPresent(firmata, PortOf(index)) ==>
                      status == Done
                      && firmata.transport.written
                         == old(firmata.transport.written)
                            + Commands.DigitalWrite(PortOf(index),
                                                    PortByte(PortLits(firmata, PortOf(index), 8), ShiftOf(index), v > 0))
                      && firmata.transport.flushes == old(firmata.transport.flushes) + [|firmata.transport.written|])
    {
      if mode == Output {
        var isOn := v > 0;
        var changed := UpdateValue(if isOn then 1 else 0);
        if !changed {
          return Done;
        }
        status := WritePort(isOn);
      } else if mode == Analog || mode == Pwm || mode == Servo {
        var changed := UpdateValue(v);
        if changed {
          firmata.AnalogWrite(index, v);
        }
        return Done;
      } else {
        return Thrown(InvalidPinWrite);
      }
    }
  }

  /** The commands a mode change sends, in order. */
  function ModeFrames(index: int32, m: PinMode, minPulse: int32, maxPulse: int32): seq<seq<int32>> {
    (if m == Servo then [Commands.ServoConfig(index, minPulse, maxPulse)] else [])
    + [Commands.ModeCommand(index, m), Commands.PinStateQuery(index)]
  }

  class TwoWireDevice {
    const master: KuruboClient
    const address: int32
    /** `receivingUpdates` */
    var receiving: bool
    /** One-shot listeners by register. */
    var callbacks: map<int32, ListenerId>
    var subscribers: set<ListenerId>

    constructor(master: KuruboClient, address: int32)
      ensures this.master == master && this.address == address
      ensures !receiving && callbacks == map[] && subscribers == {}
    {
      this.master := master;
      this.address := address;
      receiving := false;
      callbacks := map[];
      subscribers := {};
    }

    method Delay(delay: int32) returns (status: Status)
      requires master.longestDelay >= 0
      modifies master`longestDelay, master.transport
      ensures master.longestDelay == if delay > old(master.longestDelay) then delay else old(master.longestDelay)
      ensures delay <= old(master.longestDelay) ==> status == Done && unchanged(master.transport)
      ensures delay > old(master.longestDelay) ==>
                (if delay > 255 then status == Thrown(IllegalArgument) && unchanged(master.transport)
                 else status == Done
                      && master.transport.written == old(master.transport.written) + Commands.DelayFrame(delay)
                      && master.transport.flushes == old(master.transport.flushes) + [|master.transport.written|])
    {
      status := master.TwoWireDelay(delay);
    }

    method Tell(data: seq<int8>)
      modifies master.transport
      ensures master.transport.written == old(master.transport.written) + Commands.TwoWireWrite(address, data)
      ensures master.transport.flushes
           == old(master.transport.flushes) + [|old(master.transport.written)| + 4, |master.transport.written|]
    {
      master.TwoWireWrite(address, data);
    }

    /** `ask(register, responseLength, listener)`: the listener replaces any other waiting on that register. */
    method Ask(register: int32, responseLength: int32, listener: ListenerId)
      modifies this`callbacks, master.transport
      ensures callbacks == old(callbacks)[register := listener]
      ensures master.transport.written
           == old(master.transport.written) + Commands.TwoWireRead(address, register, responseLength, false)
      ensures master.transport.flushes == old(master.transport.flushes) + [|master.transport.written|]
    {
      callbacks := callbacks[register := listener];
      master.TwoWireRead(address, register, responseLength, false);
    }

    /** `ask(responseLength, listener)`: a read with no register. */
    method AskAny(responseLength: int32, listener: ListenerId)
      modifies this`callbacks, master.transport
      ensures callbacks == old(callbacks)[Commands.REGISTER_NOT_SET := listener]
      ensures master.transport.written
           == old(master.transport.written) + Commands.TwoWireRead(address, Commands.REGISTER_NOT_SET, responseLength, false)
      ensures master.transport.flushes == old(master.transport.flushes) + [|master.transport.written|]
    {
      Ask(Commands.REGISTER_NOT_SET, responseLength, listener);
    }

    /**
     * `askSync(register, responseLength, timeout)`: asks with a listener that
     * completes a future, then waits for it. Nothing else runs while the model
     * waits, so the wait times out and the answer is null; the listener stays
     * registered and takes the reply when it comes.
     */
    method AskSync(register: int32, responseLength: int32, waiter: ListenerId) returns (r: Option<Reply>)
      modifies this`callbacks, master.transport
      ensures r == None
      ensures callbacks == old(callbacks)[register := waiter]
      ensures master.transport.written
           == old(master.transport.written) + Commands.TwoWireRead(address, register, responseLength, false)
      ensures master.transport.flushes == old(master.transport.flushes) + [|master.transport.written|]
    {
      Ask(register, responseLength, waiter);
      return None;
    }

    method AddListener(l: ListenerId)
      modifies this`subscribers
      ensures subscribers == old(subscribers) + {l}
    {
      subscribers := subscribers + {l};
    }

    method RemoveListener(l: ListenerId)
      modifies this`subscribers
      ensures subscribers == old(subscribers) - {l}
    {
      subscribers := subscribers - {l};
    }

    /** `startReceivingUpdates(register, messageLength)`: only the first start sends the continuous read. */
    method StartReceivingUpdates(register: int32, messageLength: int32) returns (started: bool)
      modifies this`receiving, master.transport
      ensures started <==> !old(receiving)
      ensures receiving
      ensures !started ==> unchanged(master.transport)
      ensures started ==>
                master.transport.written
                == old(master.transport.written) + Commands.TwoWireRead(address, register, messageLength, true)
                && master.transport.flushes == old(master.transport.flushes) + [|master.transport.written|]
    {
      started := !receiving;
      if started {
        receiving := true;
        master.TwoWireRead(address, register, messageLength, true);
      }
    }

    /** `startReceivingUpdates(messageLength)`: the same, with no register. */
    method StartReceivingAllUpdates(messageLength: int32) returns (started: bool)
      modifies this`receiving, master.transport
      ensures started <==> !old(receiving)
      ensures receiving
      ensures !started ==> unchanged(master.transport)
      ensures started ==>
                master.transport.written
                == old(master.transport.written)
                   + Commands.TwoWireRead(address, Commands.REGISTER_NOT_SET, messageLength, true)
                && master.transport.flushes == old(master.transport.flushes) + [|master.transport.written|]
    {
      started := StartReceivingUpdates(Commands.REGISTER_NOT_SET, messageLength);
    }

    /** `stopReceivingUpdates()`: only a running subscription is stopped. */
    method StopReceivingUpdates()
      modifies this`receiving, master.transport
      ensures !receiving
      ensures !old(receiving) ==> unchanged(master.transport)
      ensures old(receiving) ==>
                master.transport.written == old(master.transport.written) + Commands.TwoWireStopContinuous(address)
                && master.transport.flushes == old(master.transport.flushes) + [|master.transport.written|]
    {
      if receiving {
        receiving := false;
        master.TwoWireStopContinuous(address);
      }
    }

    /**
     * `onReceive(register, message)`: a listener waiting on the register gets
     * the reply alone and is dropped; with none waiting, every subscriber gets it.
     */
    method OnReceive(register: int32, data: seq<int32>)
      modifies this`callbacks, master.log
      ensures callbacks == old(callbacks) - {register}
      ensures register in old(callbacks) ==>
                master.log.sent == old(master.log.sent) + [TwoWireReceive({old(callbacks)[register]}, address, register, data)]
      ensures register !in old(callbacks) ==>
                master.log.sent == old(master.log.sent) + [TwoWireReceive(subscribers, address, register, data)]
    {
      if register in callbacks {
        var listener := callbacks[register];
        callbacks := callbacks - {register};
        master.log.Notify(TwoWireReceive({listener}, address, register, data));
      } else {
        master.log.Notify(TwoWireReceive(subscribers, address, register, data));
      }
    }
  }
}
