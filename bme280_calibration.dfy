/** The BME280 trim coefficients (`bme280_calib_data_t`) and how the driver
    decodes them from the bytes it reads at 0x88..0x9F, 0xA1 and 0xE1..0xE7.

    The 24 temperature/pressure bytes are read straight into the struct's
    first twelve 16-bit members, so on the little-endian target each member is
    bytes 2j and 2j+1 of the block, low byte first.  The humidity bytes are
    unpacked by hand, two of them sharing register 0xE5 in a 12-bit split. */
module Calibration {
  import opened FixedWidth

  /** `dig_T1`..`dig_P9`: T1 and P1 are `uint16_t`, the rest `int16_t`. */
  datatype TempPressTrim = TempPressTrim(
    t1: int, t2: int, t3: int,
    p1: int, p2: int, p3: int, p4: int, p5: int, p6: int, p7: int, p8: int, p9: int)

  /** `dig_H1` (`uint8_t`), `dig_H2` (`int16_t`), `dig_H3` (`uint16_t`),
      `dig_H4`, `dig_H5` (`int16_t`) and `dig_H6` (`int8_t`). */
  datatype HumidityTrim = HumidityTrim(h1: int, h2: int, h3: int, h4: int, h5: int, h6: int)

  datatype Calib = Calib(tp: TempPressTrim, hum: HumidityTrim)

  /** Number of temperature/pressure trim bytes (`T_P_CALIB_NUM_BYTES`). */
  const TP_BYTES: nat := 24
  /** Number of humidity trim bytes read (1 at 0xA1, then 7 at 0xE1). */
  const HUM_BYTES: nat := 8

  predicate IsU16(x: int) { 0 <= x < TWO_16 }
  predicate IsS16(x: int) { -0x8000 <= x < 0x8000 }

  /** The fields of a trim set fit their C types. */
  predicate ValidTempPress(t: TempPressTrim)
  {
    IsU16(t.t1) && IsS16(t.t2) && IsS16(t.t3) &&
    IsU16(t.p1) && IsS16(t.p2) && IsS16(t.p3) && IsS16(t.p4) && IsS16(t.p5) &&
    IsS16(t.p6) && IsS16(t.p7) && IsS16(t.p8) && IsS16(t.p9)
  }

  /** The humidity fields hold what the decoder can produce:
      H4 and H5 are 12-bit values, H1 and H3 bytes. */
  predicate ValidHumidity(h: HumidityTrim)
  {
    0 <= h.h1 < 256 && IsS16(h.h2) && 0 <= h.h3 < 256 &&
    0 <= h.h4 < 4096 && 0 <= h.h5 < 4096 && -0x80 <= h.h6 < 0x80
  }

  // ---------------------------------------------------------------------------
  // 16-bit little-endian fields

  /** The `uint16_t` whose bytes in memory are `lo`, `hi`. */
  function LE16(lo: Byte, hi: Byte): (u: int)
    ensures IsU16(u) && u % 256 == lo && u / 256 == hi
  {
    lo + 256 * hi
  }

  /** The two bytes, low first, that store the `uint16_t` `u`. */
  function Bytes16(u: int): (b: seq<Byte>)
    requires IsU16(u)
    ensures |b| == 2 && LE16(b[0], b[1]) == u
  {
    [(u % 256), (u / 256)]
  }

  /** The `uint16_t` bit pattern of an `int16_t`. */
  function U16OfI16(s: int): (u: int)
    requires IsS16(s)
    ensures IsU16(u) && I16OfU16(u) == s
  {
    if s < 0 then s + TWO_16 else s
  }

  function U16Field(b: seq<Byte>, j: nat): int
    requires 2 * j + 1 < |b|
  {
    LE16(b[2 * j], b[2 * j + 1])
  }

  function S16Field(b: seq<Byte>, j: nat): int
    requires 2 * j + 1 < |b|
  {
    I16OfU16(LE16(b[2 * j], b[2 * j + 1]))
  }

  /** The struct's first 24 bytes, viewed as T1..P9. */
  function DecodeTempPress(b: seq<Byte>): (t: TempPressTrim)
    requires |b| == TP_BYTES
    ensures ValidTempPress(t)
  {
    TempPressTrim(
      U16Field(b, 0), S16Field(b, 1), S16Field(b, 2),
      U16Field(b, 3), S16Field(b, 4), S16Field(b, 5), S16Field(b, 6), S16Field(b, 7),
      S16Field(b, 8), S16Field(b, 9), S16Field(b, 10), S16Field(b, 11))
  }

  /** The `uint16_t` bit pattern held in member `j` (0 = T1 .. 11 = P9). */
  function FieldBits(t: TempPressTrim, j: nat): (u: int)
    requires ValidTempPress(t) && j < 12
    ensures IsU16(u)
  {
    if j == 0 then t.t1
    else if j == 1 then U16OfI16(t.t2)
    else if j == 2 then U16OfI16(t.t3)
    else if j == 3 then t.p1
    else if j == 4 then U16OfI16(t.p2)
    else if j == 5 then U16OfI16(t.p3)
    else if j == 6 then U16OfI16(t.p4)
    else if j == 7 then U16OfI16(t.p5)
    else if j == 8 then U16OfI16(t.p6)
    else if j == 9 then U16OfI16(t.p7)
    else if j == 10 then U16OfI16(t.p8)
    else U16OfI16(t.p9)
  }

  /** The 24 bytes that store a trim set, low byte of each member first:
      the partner of `DecodeTempPress`. */
  function EncodeTempPress(t: TempPressTrim): (b: seq<Byte>)
    requires ValidTempPress(t)
    ensures |b| == TP_BYTES
  {
    seq(TP_BYTES, i requires 0 <= i < TP_BYTES =>
      if i % 2 == 0 then FieldBits(t, i / 2) % 256 else FieldBits(t, i / 2) / 256)
  }

  lemma U16OfI16OfU16(u: int)
    requires IsU16(u)
    ensures U16OfI16(I16OfU16(u)) == u
  {
  }

  /** Member `j` of a decoded block holds the block's bytes 2j and 2j+1. */
  lemma FieldBitsOfDecode(b: seq<Byte>, j: nat)
    requires |b| == TP_BYTES && j < 12
    ensures FieldBits(DecodeTempPress(b), j) == U16Field(b, j)
  {
    U16OfI16OfU16(U16Field(b, j));
  }

  /** Member `j` of an encoded trim set is stored as its bit pattern. */
  lemma U16FieldOfEncode(t: TempPressTrim, j: nat)
    requires ValidTempPress(t) && j < 12
    ensures U16Field(EncodeTempPress(t), j) == FieldBits(t, j)
  {
    var b := EncodeTempPress(t);
    assert b[2 * j] == FieldBits(t, j) % 256;
    assert b[2 * j + 1] == FieldBits(t, j) / 256;
  }

  /** Decoding a stored trim set gives it back. */
  lemma DecodeEncodeTempPress(t: TempPressTrim)
    requires ValidTempPress(t)
    ensures DecodeTempPress(EncodeTempPress(t)) == t
  {
    U16FieldOfEncode(t, 0); U16FieldOfEncode(t, 1); U16FieldOfEncode(t, 2);
    U16FieldOfEncode(t, 3); U16FieldOfEncode(t, 4); U16FieldOfEncode(t, 5);
    U16FieldOfEncode(t, 6); U16FieldOfEncode(t, 7); U16FieldOfEncode(t, 8);
    U16FieldOfEncode(t, 9); U16FieldOfEncode(t, 10); U16FieldOfEncode(t, 11);
  }

  /** Every 24-byte block is the encoding of the trim set it decodes to:
      the layout loses nothing. */
  lemma EncodeDecodeTempPress(b: seq<Byte>)
    requires |b| == TP_BYTES
    ensures EncodeTempPress(DecodeTempPress(b)) == b
  {
    var e := EncodeTempPress(DecodeTempPress(b));
    forall i | 0 <= i < TP_BYTES ensures e[i] == b[i] {
      var k := i / 2;
      FieldBitsOfDecode(b, k);
      if i % 2 == 0 {
        assert i == 2 * k;
      } else {
        assert i == 2 * k + 1;
      }
    }
  }

  // ---------------------------------------------------------------------------
  // Humidity trim: registers 0xA1 (buffer byte 0) and 0xE1..0xE7 (bytes 1..7)

  /** The humidity decode of `bme280_init`: H1 and H3 are bytes 0 and 3, H2
      the signed little-endian value of bytes 1 and 2, H4 byte 4 followed by
      the low nibble of byte 5, H5 byte 6 followed by the high nibble of
      byte 5, and H6 byte 7 read as signed. */
  function DecodeHumidity(b: seq<Byte>): (h: HumidityTrim)
    requires |b| >= HUM_BYTES
    ensures ValidHumidity(h)
    ensures h.h4 / 16 == b[4] && h.h4 % 16 == b[5] % 16
    ensures h.h5 / 16 == b[6] && h.h5 % 16 == b[5] / 16
  {
    HumidityTrim(
      b[0],
      I16OfU16(b[1] as int + 256 * b[2] as int),
      b[3],
      16 * b[4] as int + LowNibble(b[5]) as int,
      HighNibble(b[5]) as int + 16 * b[6] as int,
      I8OfU8(b[7]))
  }

  /** Packs a humidity trim set back into the eight register bytes,
      H4's low nibble and H5's low nibble sharing register 0xE5. */
  function EncodeHumidity(h: HumidityTrim): (b: seq<Byte>)
    requires ValidHumidity(h)
    ensures |b| == HUM_BYTES
  {
    var u2 := U16OfI16(h.h2);
    [ h.h1,
      (u2 % 256), (u2 / 256),
      h.h3,
      (h.h4 / 16),
      (16 * (h.h5 % 16) + h.h4 % 16),
      (h.h5 / 16),
      if h.h6 < 0 then h.h6 + 256 else h.h6 ]
  }

  lemma DecodeEncodeHumidity(h: HumidityTrim)
    requires ValidHumidity(h)
    ensures DecodeHumidity(EncodeHumidity(h)) == h
  {
    var b := EncodeHumidity(h);
    var d := DecodeHumidity(b);
    assert d.h4 == 16 * (d.h4 / 16) + d.h4 % 16;
    assert d.h5 == 16 * (d.h5 / 16) + d.h5 % 16;
  }

  lemma EncodeDecodeHumidity(b: seq<Byte>)
    requires |b| >= HUM_BYTES
    ensures EncodeHumidity(DecodeHumidity(b)) == b[..HUM_BYTES]
  {
    var h := DecodeHumidity(b);
    var e := EncodeHumidity(h);
  }
}
