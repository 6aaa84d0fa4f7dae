/**
 * Byte assembly of one burst read: six bytes, low byte first, become three
 * signed 16-bit axis values, each computed as `(int16_t)(hi << 8 | lo)`.
 */
module Sample {
  import opened LsmTypes

  /** One three-axis sample (`vector<int16_t>`). */
  datatype Vector = Vector(x: int16, y: int16, z: int16)

  /**
   * `hi << 8 | lo` on the promoted operands: the shift multiplies by 256 and
   * leaves the low eight bits clear, so the or adds the low byte
   * (`ShiftOrIsAddition`).
   */
  function ShiftOr(hi: uint8, lo: uint8): (w: int)
    ensures 0 <= w < 0x1_0000
    ensures w / 0x100 == hi && w % 0x100 == lo
  {
    hi * 0x100 + lo
  }

  /** On 16-bit words, or-ing a byte into the free low half of a shifted byte is addition. */
  lemma ShiftOrIsAddition(h: bv16, l: bv16)
    requires h < 0x100 && l < 0x100
    ensures (h << 8) | l == h * 0x100 + l
    ensures (h << 8) & l == 0
  {
  }

  /** The `(int16_t)` conversion of a 16-bit word, two's complement. */
  function ToInt16(w: int): (v: int16)
    requires 0 <= w < 0x1_0000
    ensures (v as int) % 0x1_0000 == w
  {
    if w < 0x8000 then w else w - 0x1_0000
  }

  /** One axis: `(int16_t)(hi << 8 | lo)`. */
  function AxisValue(lo: uint8, hi: uint8): (v: int16)
    ensures (v as int) % 0x1_0000 == hi * 0x100 + lo
    ensures v < 0 <==> hi >= 0x80
  {
    ToInt16(ShiftOr(hi, lo))
  }

  /** The (low, high) byte pair the chip sends for the axis value `v`. */
  function EncodeAxis(v: int16): (bytes: (uint8, uint8))
  {
    ((v as int) % 0x100, ((v as int) % 0x1_0000) / 0x100)
  }

  lemma AxisExamples()
    ensures AxisValue(0x34, 0x12) == 0x1234 == 4660
    ensures AxisValue(0xFF, 0xFF) == -1
    ensures AxisValue(0x00, 0x80) == -0x8000
    ensures AxisValue(0xFF, 0x7F) == 0x7FFF
  {
  }

  /** The two cases of the conversion: the word itself below 32768, the word minus 65536 otherwise. */
  lemma AxisValueCases(lo: uint8, hi: uint8)
    ensures hi * 0x100 + lo < 0x8000 ==> AxisValue(lo, hi) == hi * 0x100 + lo
    ensures hi * 0x100 + lo >= 0x8000 ==> AxisValue(lo, hi) == hi * 0x100 + lo - 0x1_0000
  {
  }

  /** Decoding inverts encoding. */
  lemma DecodeEncodeAxis(v: int16)
    ensures AxisValue(EncodeAxis(v).0, EncodeAxis(v).1) == v
  {
    var i := v as int;
    var w := i % 0x1_0000;
    var (lo, hi) := EncodeAxis(v);
    assert lo == w % 0x100 by {
      assert i == (i / 0x1_0000) * 0x1_0000 + w;
      assert i == (i / 0x1_0000) * 0x100 * 0x100 + w;
    }
    assert hi * 0x100 + lo == w;
    var r := AxisValue(lo, hi);
    assert (r as int) % 0x1_0000 == (v as int) % 0x1_0000;
  }

  /** Encoding inverts decoding: every byte pair is the image of exactly one axis value. */
  lemma EncodeDecodeAxis(lo: uint8, hi: uint8)
    ensures EncodeAxis(AxisValue(lo, hi)) == (lo, hi)
  {
    var v := AxisValue(lo, hi);
    var w := hi * 0x100 + lo;
    var i := v as int;
    AxisValueCases(lo, hi);
    if w < 0x8000 {
      assert i == hi * 0x100 + lo;
    } else {
      assert i == (hi - 0x100) * 0x100 + lo;
    }
    assert i % 0x100 == lo;
    assert i % 0x1_0000 == w;
    assert w / 0x100 == hi;
  }

  /** The three axes of a six-byte burst, in the order x low, x high, y low, y high, z low, z high. */
  function DecodeSample(bytes: seq<uint8>): (v: Vector)
    requires |bytes| == 6
    ensures (v.x as int) % 0x1_0000 == (bytes[1] as int) * 0x100 + bytes[0] && (v.x < 0 <==> bytes[1] >= 0x80)
    ensures (v.y as int) % 0x1_0000 == (bytes[3] as int) * 0x100 + bytes[2] && (v.y < 0 <==> bytes[3] >= 0x80)
    ensures (v.z as int) % 0x1_0000 == (bytes[5] as int) * 0x100 + bytes[4] && (v.z < 0 <==> bytes[5] >= 0x80)
  {
    Vector(AxisValue(bytes[0], bytes[1]), AxisValue(bytes[2], bytes[3]), AxisValue(bytes[4], bytes[5]))
  }

  /** The six bytes the chip sends for the sample `v`. */
  function EncodeSample(v: Vector): (bytes: seq<uint8>)
    ensures |bytes| == 6
  {
    var (xl, xh) := EncodeAxis(v.x);
    var (yl, yh) := EncodeAxis(v.y);
    var (zl, zh) := EncodeAxis(v.z);
    [xl, xh, yl, yh, zl, zh]
  }

  lemma DecodeEncodeSample(v: Vector)
    ensures DecodeSample(EncodeSample(v)) == v
  {
    DecodeEncodeAxis(v.x);
    DecodeEncodeAxis(v.y);
    DecodeEncodeAxis(v.z);
  }

  lemma EncodeDecodeSample(bytes: seq<uint8>)
    requires |bytes| == 6
    ensures EncodeSample(DecodeSample(bytes)) == bytes
  {
    EncodeDecodeAxis(bytes[0], bytes[1]);
    EncodeDecodeAxis(bytes[2], bytes[3]);
    EncodeDecodeAxis(bytes[4], bytes[5]);
  }
}
