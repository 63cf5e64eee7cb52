/**
 * The transport as the client sees it: a sink of bytes that can be flushed
 * (Transport.kt). Reading is done by the parser thread and closing by the
 * shutdown path; neither is part of this model.
 */
module Transport {
  import opened Bitwise
  import opened FirmataProtocol

  /** `value and 0x7F`: the first byte `sendValueAsTwo7bitBytes` writes. */
  function Lsb7(value: int32): (r: int32)
    ensures 0 <= r < 0x80
    ensures r == value % 0x80
  {
    Pow2Values();
    AndLowMask(value, 0x7F, 7);
    And(value, 0x7F)
  }

  /** `value ushr 7 and 0x7F`: the second byte, bits 7..13 of the 32-bit pattern. */
  function Msb7(value: int32): (r: int32)
    ensures 0 <= r < 0x80
    ensures r == (Unsigned(value) / 0x80) % 0x80
  {
    Pow2Values();
    assert 7 % 32 == 7;
    assert Ushr(value, 7) == Unsigned(value) / 0x80;
    AndLowMask(Ushr(value, 7), 0x7F, 7);
    And(Ushr(value, 7), 0x7F)
  }

  /** For a value that fits in 14 bits the two 7-bit groups add back up to it. */
  lemma Two7bitBytesRecombine(value: int32)
    requires 0 <= value < 0x4000
    ensures Lsb7(value) + 0x80 * Msb7(value) == value
  {
    var q := value / 0x80;
    assert Unsigned(value) == value;
    assert q % 0x80 == q by {
      DivUnique(q, 0x80, 0, q);
    }
    assert value == 0x80 * q + value % 0x80;
  }

  /** `decode7Bit` reads back any single byte sent with `sendValueAsTwo7bitBytes`. */
  lemma Decode7BitRoundTrip(value: int32)
    requires 0 <= value < 0x100
    ensures Decode7Bit([Lsb7(value) as byte, Msb7(value) as byte], 0) == value
  {
    Two7bitBytesRecombine(value);
  }

  /**
   * A byte sink. `written` is every value passed to `write`, in order; `flushes`
   * records, for each `flush`, how many values had been written at that point.
   */
  class Transport {
    var written: seq<int32>
    var flushes: seq<nat>

    constructor()
      ensures written == [] && flushes == []
    {
      written := [];
      flushes := [];
    }

    /** `write(b)` */
    method Write(b: int32)
      modifies this
      ensures written == old(written) + [b]
      ensures flushes == old(flushes)
    {
      written := written + [b];
    }

    /** `flush()` */
    method Flush()
      modifies this
      ensures written == old(written)
      ensures flushes == old(flushes) + [|written|]
    {
      flushes := flushes + [|written|];
    }

    /** `sendValueAsTwo7bitBytes(value)`: two writes, the low seven bits first. */
    method SendValueAsTwo7bitBytes(value: int32)
      modifies this
      ensures written == old(written) + [Lsb7(value), Msb7(value)]
      ensures flushes == old(flushes)
    {
      Write(Lsb7(value));
      Write(Msb7(value));
    }
  }
}
