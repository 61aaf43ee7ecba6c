/** The BME280 driver of bme280.c: register framing over SPI, device
    initialisation, and the acquisition of one compensated sample.

    The driver's globals (`Chip_enable_selected__i`, `Calib_data`, `t_fine`)
    become the fields of a `Driver`; the SPI transport is the scripted `Bus`. */
module Bme280 {
  import opened FixedWidth
  import opened Spi
  import opened Calibration
  import opened Compensation
  import opened Optional

  /** `SENSOR_MODULE_MAX_XFER_LEN`: the size of the driver's transfer buffers. */
  const MAX_XFER_LEN: nat := 128
  /** `Num_allowed_retries__i`: the burst read is tried this many times more. */
  const NUM_ALLOWED_RETRIES: nat := 3
  /** The burst read covers registers 0xF7..0xFE. */
  const BURST_BYTES: nat := 8

  const REG_DIG_T1: Byte := 0x88
  const REG_DIG_H1: Byte := 0xA1
  const REG_CHIPID: Byte := 0xD0
  const REG_DIG_H2: Byte := 0xE1
  const REG_STATUS: Byte := 0xF3
  const REG_CONTROL: Byte := 0xF4
  const REG_PRESDATA: Byte := 0xF7

  /** The value of the chip-id register of a BME280. */
  const CHIP_ID: Byte := 0x60
  /** Temperature oversampling x1, pressure oversampling x16, normal mode. */
  const CONTROL_SETTING: Byte := 0x3F

  // ---------------------------------------------------------------------------
  // Framing (section 6.3 of the BME280 datasheet): in every control byte, bit 7
  // says read (1) or write (0) and bits 6..0 hold the register address without
  // its bit 7.

  datatype Control = Control(read: bool, address: int)

  /** How the device reads a control byte. */
  function ParseControl(b: Byte): (c: Control)
    ensures 0 <= c.address < 0x80
    ensures b == (if c.read then 0x80 else 0) + c.address
  {
    Control(b >= 0x80, b % 0x80)
  }

  /** The frame `bme280_read` sends: a read control byte, then `numBytes`
      zero bytes during which the device clocks its registers out. */
  function ReadFrame(register: Byte, numBytes: nat): (f: seq<Byte>)
    ensures |f| == numBytes + 1
    ensures ParseControl(f[0]) == Control(true, register % 0x80)
    ensures forall i {:trigger f[i]} :: 1 <= i < |f| ==> f[i] == 0
  {
    [SetBit7(register)] + seq(numBytes, _ => 0)
  }

  /** Byte `k` of the frame `bme280_write` sends: even bytes are write
      control bytes, the address advancing by one per pair; odd bytes are
      the data. */
  function WriteByteAt(register: Byte, data: seq<Byte>, k: nat): Byte
    requires k < 2 * |data|
  {
    if k % 2 == 0 then Low7(register + k / 2) else data[k / 2]
  }

  /** The frame `bme280_write` sends: one (write control byte, value) pair per
      data byte. */
  function WriteFrame(register: Byte, data: seq<Byte>): (f: seq<Byte>)
    ensures |f| == 2 * |data|
    ensures forall k {:trigger f[k]} :: 0 <= k < |f| ==> f[k] == WriteByteAt(register, data, k)
  {
    seq(2 * |data|, k requires 0 <= k < 2 * |data| => WriteByteAt(register, data, k))
  }

  /** Pair `i` of a write frame tells the device to write `data[i]` to
      register `register + i` (bits 6..0). */
  lemma WriteFrameMeaning(register: Byte, data: seq<Byte>)
    ensures var f := WriteFrame(register, data);
            forall i {:trigger data[i]} :: 0 <= i < |data| ==>
              ParseControl(f[2 * i]) == Control(false, (register + i) % 0x80) && f[2 * i + 1] == data[i]
  {
    var f := WriteFrame(register, data);
    forall i | 0 <= i < |data|
      ensures ParseControl(f[2 * i]) == Control(false, (register + i) % 0x80) && f[2 * i + 1] == data[i]
    {
      assert (2 * i) % 2 == 0 && (2 * i) / 2 == i;
      assert (2 * i + 1) % 2 == 1 && (2 * i + 1) / 2 == i;
    }
  }

  /** What `bme280_read` returns for a reply: the transferred count less the
      control byte. */
  function ReadCount(r: Reply, numBytes: nat): (n: int)
    ensures -1 <= n <= numBytes
  {
    Delivered(r, numBytes + 1) - 1
  }

  /** The bytes a read of `numBytes` hands to its caller: everything the
      transport delivered after the control byte.  Byte `i` is the device's
      byte `i + 1`, or the frame's zero where the device sent nothing. */
  function ReadPayload(r: Reply, register: Byte, numBytes: nat): (p: seq<Byte>)
    ensures |p| == if ReadCount(r, numBytes) < 0 then 0 else ReadCount(r, numBytes)
  {
    var n := Delivered(r, numBytes + 1);
    if n == 0 then [] else Received(r, ReadFrame(register, numBytes))[1..n]
  }

  /** Byte `i` of what a read hands back is the device's byte `i + 1`, or the
      frame's zero where the device sent nothing: the control byte's echo is
      dropped and nothing of the frame but its padding shows through. */
  lemma ReadPayloadBytes(r: Reply, register: Byte, numBytes: nat)
    ensures var p := ReadPayload(r, register, numBytes);
            forall i {:trigger p[i]} :: 0 <= i < |p| ==> p[i] == (if i + 1 < |r.data| then r.data[i + 1] else 0)
  {
  }

  // ---------------------------------------------------------------------------
  // The write guard.  A write of `n` bytes builds a frame of `2n` bytes in a
  // buffer of MAX_XFER_LEN bytes.

  /** The frame length `bme280_write` builds for `n` bytes as written, where
      the guard rejects only `n > 128`; None when the guard rejects `n`. */
  function WriteLengthAsWritten(n: nat): (r: Option<nat>)
    ensures r.Some? <==> n <= MAX_XFER_LEN
    ensures r.Some? ==> r.value == 2 * n <= 2 * MAX_XFER_LEN
  {
    if n > MAX_XFER_LEN then None else Some(2 * n)
  }

  /** The as-written guard lets through a 65-byte write whose 130-byte frame
      does not fit the 128-byte buffer. */
  lemma WriteGuardOverrun()
    ensures WriteLengthAsWritten(65) == Some(130)
    ensures 130 > MAX_XFER_LEN
  {
  }

  /** The frame length with the guard the buffer needs: writes of more than
      half the buffer are rejected. */
  function WriteLength(n: nat): (len: Option<nat>)
    ensures len.Some? ==> len.value <= MAX_XFER_LEN
  {
    if n > MAX_XFER_LEN / 2 then None else Some(2 * n)
  }

  /** The corrected guard accepts exactly the writes whose frame fits, and it
      differs from the as-written one exactly for 64 < n <= 128. */
  lemma WriteGuards(n: nat)
    ensures WriteLength(n).Some? <==> 2 * n <= MAX_XFER_LEN
    ensures WriteLength(n) != WriteLengthAsWritten(n) <==> MAX_XFER_LEN / 2 < n <= MAX_XFER_LEN
  {
  }

  // ---------------------------------------------------------------------------
  // Initialisation: the five transfers `bme280_init` makes, in order.

  /** Transfer `k` of the initialisation: the chip id, the 24 temperature and
      pressure trim bytes, the first humidity trim byte, the other seven, and
      the write of the control byte. */
  function InitFrame(k: nat): seq<Byte>
    requires k < 5
  {
    if k == 0 then ReadFrame(REG_CHIPID, 1)
    else if k == 1 then ReadFrame(REG_DIG_T1, TP_BYTES)
    else if k == 2 then ReadFrame(REG_DIG_H1, 1)
    else if k == 3 then ReadFrame(REG_DIG_H2, HUM_BYTES - 1)
    else WriteFrame(REG_CONTROL, [CONTROL_SETTING])
  }

  /** Whether the reply to transfer `k` lets the initialisation go on: every
      read must deliver its full count, the chip id must be 0x60, and the
      write must report one byte written, which takes both bytes of its
      frame (the count is halved, truncated and narrowed to `uint8_t`). */
  predicate StepPasses(k: nat, r: Reply)
    requires k < 5
  {
    if k == 0 then ReadCount(r, 1) == 1 && ReadPayload(r, REG_CHIPID, 1)[0] == CHIP_ID
    else if k == 1 then ReadCount(r, TP_BYTES) == TP_BYTES as int
    else if k == 2 then ReadCount(r, 1) == 1
    else if k == 3 then ReadCount(r, HUM_BYTES - 1) == (HUM_BYTES - 1) as int
    else Delivered(r, 2) == 2
  }

  /** The number of transfers `bme280_init` makes with a valid chip select:
      it stops after the first step that fails. */
  function InitSteps(replies: seq<Reply>): (k: nat)
    ensures 1 <= k <= 5
  {
    if !StepPasses(0, ReplyAt(replies, 0)) then 1
    else if !StepPasses(1, ReplyAt(replies, 1)) then 2
    else if !StepPasses(2, ReplyAt(replies, 2)) then 3
    else if !StepPasses(3, ReplyAt(replies, 3)) then 4
    else 5
  }

  /** Every one of the five steps passes. */
  predicate InitSucceeds(replies: seq<Reply>)
  {
    StepPasses(0, ReplyAt(replies, 0)) && StepPasses(1, ReplyAt(replies, 1)) &&
    StepPasses(2, ReplyAt(replies, 2)) && StepPasses(3, ReplyAt(replies, 3)) &&
    StepPasses(4, ReplyAt(replies, 4))
  }

  /** The initialisation succeeds exactly when all five transfers are made and
      the last one passes. */
  lemma InitSucceedsIffLastStep(replies: seq<Reply>)
    ensures InitSucceeds(replies) <==> InitSteps(replies) == 5 && StepPasses(4, ReplyAt(replies, 4))
  {
  }

  /** Transfer `j` is made exactly when every step before it passed. */
  lemma InitStepsMeaning(replies: seq<Reply>, j: nat)
    requires j < 5
    ensures j < InitSteps(replies) <==> forall i {:trigger StepPasses(i, ReplyAt(replies, i))} :: 0 <= i < j ==> StepPasses(i, ReplyAt(replies, i))
  {
    if j < InitSteps(replies) {
    } else {
      var k := InitSteps(replies);
      assert !StepPasses(k - 1, ReplyAt(replies, k - 1));
    }
  }

  /** The frames of initialisation transfers `from` up to `to` on channel
      `chip`. */
  function InitFrames(chip: int, from: nat, to: nat): (t: seq<Frame>)
    requires from <= to <= 5
    ensures |t| == to - from
    ensures forall i {:trigger t[i]} :: 0 <= i < to - from ==> t[i] == Frame(chip, InitFrame(from + i))
  {
    seq(to - from, i requires 0 <= i < to - from => Frame(chip, InitFrame(from + i)))
  }

  /** One more transfer extends the transcript by its frame. */
  lemma InitFramesStep(chip: int, from: nat, to: nat)
    requires from <= to < 5
    ensures InitFrames(chip, from, to) + [Frame(chip, InitFrame(to))] == InitFrames(chip, from, to + 1)
  {
  }

  lemma InitFramesAppend(chip: int, a: nat, b: nat, c: nat)
    requires a <= b <= c <= 5
    ensures InitFrames(chip, a, b) + InitFrames(chip, b, c) == InitFrames(chip, a, c)
  {
  }

  /** The eight humidity trim bytes the initialisation reads (steps 2 and 3). */
  function HumidityBytes(replies: seq<Reply>): (b: seq<Byte>)
    requires StepPasses(2, ReplyAt(replies, 2)) && StepPasses(3, ReplyAt(replies, 3))
    ensures |b| == HUM_BYTES
  {
    ReadPayload(ReplyAt(replies, 2), REG_DIG_H1, 1) +
    ReadPayload(ReplyAt(replies, 3), REG_DIG_H2, HUM_BYTES - 1)
  }

  /** The trim set a successful initialisation leaves behind. */
  function InitCalibration(replies: seq<Reply>): Calib
    requires InitSteps(replies) == 5
  {
    Calib(DecodeTempPress(ReadPayload(ReplyAt(replies, 1), REG_DIG_T1, TP_BYTES)),
          DecodeHumidity(HumidityBytes(replies)))
  }

  // ---------------------------------------------------------------------------
  // Acquisition.

  const STATUS_FRAME: seq<Byte> := ReadFrame(REG_STATUS, 1)
  const BURST_FRAME: seq<Byte> := ReadFrame(REG_PRESDATA, BURST_BYTES)

  /** A status read delivered its byte. */
  predicate StatusDelivered(r: Reply)
  {
    ReadCount(r, 1) == 1
  }

  /** The status byte a status read leaves: the device's second byte, or the
      frame's zero where it sent none; a delivered status read hands it back
      as its one payload byte. */
  function StatusByte(r: Reply): (b: Byte)
    ensures StatusDelivered(r) ==> b == ReadPayload(r, REG_STATUS, 1)[0]
  {
    ReadPayloadBytes(r, REG_STATUS, 1);
    if 1 < |r.data| then r.data[1] else 0
  }

  /** A delivered status read that says a conversion is running (bit 0). */
  predicate Measuring(r: Reply)
  {
    StatusDelivered(r) && Bit0(StatusByte(r)) == 1
  }

  /** The wait before the burst read: how many status reads it makes, and
      whether it ended because the device was idle (`ready`) or because a
      read came back short. */
  datatype PollOutcome = PollOutcome(polls: nat, ready: bool)

  function Poll(replies: seq<Reply>): (o: PollOutcome)
    ensures o.polls >= 1
    decreases |replies|
  {
    var r := ReplyAt(replies, 0);
    if !Measuring(r) then PollOutcome(1, StatusDelivered(r))
    else
      var o := Poll(Drop(replies, 1));
      PollOutcome(o.polls + 1, o.ready)
  }

  /** The wait makes status reads until the first one that is not a delivered
      "measuring" status; every earlier read was one, and the wait is ready
      exactly when that last read delivered its byte. */
  lemma {:induction false} PollMeaning(replies: seq<Reply>)
    ensures var o := Poll(replies);
            (forall j {:trigger Measuring(ReplyAt(replies, j))} :: 0 <= j < o.polls - 1 ==> Measuring(ReplyAt(replies, j))) &&
            !Measuring(ReplyAt(replies, o.polls - 1)) &&
            (o.ready <==> StatusDelivered(ReplyAt(replies, o.polls - 1)))
    decreases |replies|
  {
    if Measuring(ReplyAt(replies, 0)) {
      var tail := Drop(replies, 1);
      PollMeaning(tail);
      var o := Poll(tail);
      forall j | 0 <= j < o.polls
        ensures Measuring(ReplyAt(replies, j))
      {
        if j > 0 {
          DropAt(replies, 1, j - 1);
        }
      }
      DropAt(replies, 1, o.polls - 1);
    }
  }

  /** A burst read delivered all eight bytes. */
  predicate BurstDelivered(r: Reply)
  {
    ReadCount(r, BURST_BYTES) == BURST_BYTES as int
  }

  /** The index of the first full burst read among attempts `i..3`, or 4 when
      every remaining attempt comes back short. */
  function FirstFull(replies: seq<Reply>, i: nat): (k: nat)
    requires i <= NUM_ALLOWED_RETRIES + 1
    ensures i <= k <= NUM_ALLOWED_RETRIES + 1
    ensures forall j {:trigger BurstDelivered(ReplyAt(replies, j))} :: i <= j < k ==> !BurstDelivered(ReplyAt(replies, j))
    ensures k <= NUM_ALLOWED_RETRIES ==> BurstDelivered(ReplyAt(replies, k))
    decreases NUM_ALLOWED_RETRIES + 1 - i
  {
    if i > NUM_ALLOWED_RETRIES || BurstDelivered(ReplyAt(replies, i)) then i
    else FirstFull(replies, i + 1)
  }

  /** The number of burst reads made after a successful wait. */
  function BurstTries(replies: seq<Reply>): (n: nat)
    ensures 1 <= n <= NUM_ALLOWED_RETRIES + 1
  {
    var k := FirstFull(replies, 0);
    if k <= NUM_ALLOWED_RETRIES then k + 1 else NUM_ALLOWED_RETRIES + 1
  }

  /** The three ADC values of a burst, as `int32_t`. */
  datatype RawSample = RawSample(adcP: int, adcT: int, adcH: int)

  /** A raw 20-bit field: bits 19..12 from `msb`, 11..4 from `lsb`, and of
      `xlsb` only the bit that `& 0x04` keeps. */
  function Adc20(msb: Byte, lsb: Byte, xlsb: Byte): (a: int)
    ensures 0 <= a < 0x10_0000
    ensures a / 16 == 256 * msb + lsb && a % 16 == Bit2(xlsb)
  {
    msb * 4096 + lsb * 16 + Bit2(xlsb)
  }

  /** A raw field the decoder can produce. */
  predicate ValidRaw(r: RawSample)
  {
    0 <= r.adcP < 0x10_0000 && (r.adcP % 16 == 0 || r.adcP % 16 == 4) &&
    0 <= r.adcT < 0x10_0000 && (r.adcT % 16 == 0 || r.adcT % 16 == 4) &&
    0 <= r.adcH < TWO_16
  }

  /** Registers 0xF7..0xF9 hold pressure, 0xFA..0xFC temperature, and
      0xFD..0xFE humidity, most significant byte first. */
  function DecodeRaw(b: seq<Byte>): (r: RawSample)
    requires |b| == BURST_BYTES
    ensures ValidRaw(r)
    ensures r.adcH / 256 == b[6] && r.adcH % 256 == b[7]
  {
    RawSample(Adc20(b[0], b[1], b[2]), Adc20(b[3], b[4], b[5]), 256 * b[6] as int + b[7] as int)
  }

  /** Burst bytes that carry a valid raw sample: the partner of `DecodeRaw`. */
  function EncodeRaw(r: RawSample): (b: seq<Byte>)
    requires ValidRaw(r)
    ensures |b| == BURST_BYTES
  {
    [ r.adcP / 4096, r.adcP / 16 % 256, r.adcP % 16,
      r.adcT / 4096, r.adcT / 16 % 256, r.adcT % 16,
      r.adcH / 256, r.adcH % 256 ]
  }

  /** Every sample the decoder can produce is recovered from its encoding. */
  lemma DecodeEncodeRaw(r: RawSample)
    requires ValidRaw(r)
    ensures DecodeRaw(EncodeRaw(r)) == r
  {
    Adc20OfFields(r.adcP);
    Adc20OfFields(r.adcT);
  }

  /** A 20-bit field whose low nibble is 0 or 4 is rebuilt from its three bytes. */
  lemma Adc20OfFields(a: int)
    requires 0 <= a < 0x10_0000 && (a % 16 == 0 || a % 16 == 4)
    ensures Adc20(a / 4096, a / 16 % 256, a % 16) == a
  {
    var hi, mid, lo := a / 16 / 256, a / 16 % 256, a % 16;
    assert a / 16 == 256 * hi + mid;
    assert a == 16 * (a / 16) + lo;
    assert a / 4096 == hi;
    assert Bit2(lo) == lo;
  }

  /** Re-encoding a decoded burst changes at most the bits that `& 0x04`
      discards: bytes 2 and 5 keep only bit 2, the rest come back unchanged. */
  lemma EncodeDecodeRaw(b: seq<Byte>)
    requires |b| == BURST_BYTES
    ensures var e := EncodeRaw(DecodeRaw(b));
            e[0] == b[0] && e[1] == b[1] && e[2] == Bit2(b[2]) &&
            e[3] == b[3] && e[4] == b[4] && e[5] == Bit2(b[5]) &&
            e[6] == b[6] && e[7] == b[7]
  {
    var r := DecodeRaw(b);
    assert r.adcP / 4096 == r.adcP / 16 / 256;
    assert r.adcT / 4096 == r.adcT / 16 / 256;
  }

  /** `n` copies of frame `f`. */
  function Repeat(f: Frame, n: nat): (s: seq<Frame>)
    ensures |s| == n && forall i {:trigger s[i]} :: 0 <= i < n ==> s[i] == f
  {
    seq(n, _ => f)
  }

  lemma RepeatStep(f: Frame, n: nat)
    ensures Repeat(f, n) + [f] == Repeat(f, n + 1)
  {
  }

  // ---------------------------------------------------------------------------

  class Driver {
    /** The SPI transport. */
    const bus: Bus
    /** `Chip_enable_selected__i`: -1 until `Init` selects channel 0 or 1. */
    var chipEnable: int
    /** The first 24 bytes of `Calib_data` (T1..P9), which the initialisation
        reads straight into the struct. */
    const tpBytes: array<Byte>
    /** `dig_H1`..`dig_H6` of `Calib_data`. */
    var hum: HumidityTrim
    /** `t_fine`: written by temperature compensation, read by the other two. */
    var tFine: int

    ghost predicate Valid()
      reads this
    {
      tpBytes.Length == TP_BYTES && -1 <= chipEnable <= 1 && IsI32(tFine)
    }

    /** The trim set stored in `Calib_data`. */
    function Trim(): Calib
      reads this, tpBytes
      requires Valid()
    {
      Calib(DecodeTempPress(tpBytes[..]), hum)
    }

    /** The driver's globals at program start: no chip selected, the trim set
        and `t_fine` zero. */
    constructor (bus: Bus)
      ensures Valid() && this.bus == bus
      ensures chipEnable == -1 && tFine == 0
      ensures fresh(tpBytes) && tpBytes[..] == seq(TP_BYTES, _ => 0)
      ensures hum == HumidityTrim(0, 0, 0, 0, 0, 0)
    {
      this.bus := bus;
      chipEnable := -1;
      tpBytes := new Byte[TP_BYTES](_ => 0);
      hum := HumidityTrim(0, 0, 0, 0, 0, 0);
      tFine := 0;
    }

    /** Whether `bme280_read` returns before touching the transport. */
    predicate ReadSkipped(numBytes: nat)
      reads this
    {
      chipEnable == -1 || numBytes >= MAX_XFER_LEN
    }

    /** `bme280_read`: reads `numBytes` registers from `register` on into
        `data[offset..]`. */
    method Read(register: Byte, data: array<Byte>, offset: nat, numBytes: nat) returns (res: int)
      requires Valid()
      requires numBytes < TWO_8
      requires numBytes < MAX_XFER_LEN ==> offset + numBytes <= data.Length
      modifies bus, data
      ensures ReadSkipped(numBytes) ==>
                res == 0 && bus.sent == old(bus.sent) && bus.replies == old(bus.replies) &&
                data[..] == old(data[..])
      ensures !ReadSkipped(numBytes) ==>
                var r := ReplyAt(old(bus.replies), 0);
                res == ReadCount(r, numBytes) &&
                bus.sent == old(bus.sent) + [Frame(chipEnable, ReadFrame(register, numBytes))] &&
                bus.replies == Drop(old(bus.replies), 1) &&
                data[..] == Splice(old(data[..]), offset, ReadPayload(r, register, numBytes))
    {
      if chipEnable == -1 { return 0; }
      if numBytes >= MAX_XFER_LEN { return 0; }
      ghost var r := ReplyAt(bus.replies, 0);
      var buffer := new Byte[MAX_XFER_LEN](_ => 0);
      buffer[0] := SetBit7(register);
      assert buffer[..numBytes + 1] == ReadFrame(register, numBytes);
      var result := bus.DataRW(chipEnable, buffer, numBytes + 1);
      ghost var payload := ReadPayload(r, register, numBytes);
      assert payload == if result <= 1 then [] else buffer[1..result] by {
        assert buffer[..numBytes + 1] == Received(r, ReadFrame(register, numBytes));
        if result >= 1 {
          assert payload == buffer[..numBytes + 1][1..result];
        }
      }
      CopyReply(buffer, result, data, offset);
      return result - 1;
    }

    /** The copy loop of `bme280_read`: the `n - 1` bytes after the control
        byte of `buffer` go to `data` from `offset` on. */
    static method CopyReply(buffer: array<Byte>, n: int, data: array<Byte>, offset: nat)
      requires buffer != data && n <= buffer.Length
      requires offset + (if n <= 1 then 0 else n - 1) <= data.Length
      modifies data
      ensures data[..] == Splice(old(data[..]), offset, if n <= 1 then [] else buffer[1..n])
    {
      ghost var src := if n <= 1 then [] else buffer[1..n];
      var i := 0;
      while i < n - 1
        invariant 0 <= i <= |src|
        invariant forall k :: 0 <= k < data.Length ==>
                    data[k] == (if offset <= k < offset + i then src[k - offset] else old(data[k]))
      {
        data[offset + i] := buffer[i + 1];
        i := i + 1;
      }
      assert data[..] == Splice(old(data[..]), offset, src);
    }

    /** Whether the (corrected) `bme280_write` returns before touching the
        transport. */
    predicate WriteSkipped(numBytes: nat)
      reads this
    {
      chipEnable == -1 || WriteLength(numBytes).None?
    }

    /** `bme280_write`, with the guard the 128-byte buffer needs: writes
        `numBytes` bytes of `data` to `register` on. */
    method Write(register: Byte, data: seq<Byte>, numBytes: nat) returns (res: int)
      requires Valid()
      requires numBytes < TWO_8
      requires WriteLength(numBytes).Some? ==> numBytes <= |data|
      modifies bus
      ensures WriteSkipped(numBytes) ==>
                res == 0 && bus.sent == old(bus.sent) && bus.replies == old(bus.replies)
      ensures !WriteSkipped(numBytes) ==>
                res == Delivered(ReplyAt(old(bus.replies), 0), 2 * numBytes) / 2 &&
                bus.sent == old(bus.sent) + [Frame(chipEnable, WriteFrame(register, data[..numBytes]))] &&
                bus.replies == Drop(old(bus.replies), 1)
    {
      if chipEnable == -1 { return 0; }
      if numBytes > MAX_XFER_LEN / 2 { return 0; }
      ghost var d := data[..numBytes];
      var buffer := new Byte[MAX_XFER_LEN](_ => 0);
      var i := 0;
      while i < numBytes
        modifies buffer
        invariant 0 <= i <= numBytes
        invariant forall k {:trigger buffer[k]} :: 0 <= k < 2 * i ==> buffer[k] == WriteByteAt(register, d, k)
      {
        buffer[2 * i] := Low7(register + i);
        buffer[2 * i + 1] := data[i];
        assert WriteByteAt(register, d, 2 * i) == Low7(register + i) by {
          assert (2 * i) % 2 == 0 && (2 * i) / 2 == i;
        }
        assert WriteByteAt(register, d, 2 * i + 1) == data[i] by {
          assert (2 * i + 1) % 2 == 1 && (2 * i + 1) / 2 == i;
        }
        i := i + 1;
      }
      assert buffer[..2 * numBytes] == WriteFrame(register, d);
      var result := bus.DataRW(chipEnable, buffer, 2 * numBytes);
      return CDiv(result, 2);
    }

    /** `bme280_init`: selects `chipToUse`, checks the chip id, reads the trim
        set, and configures oversampling and mode. */
    method Init(chipToUse: int) returns (ok: int)
      requires Valid()
      modifies this`chipEnable, this`hum, bus, tpBytes
      ensures Valid() && tFine == old(tFine)
      ensures !(0 <= chipToUse <= 1) ==>
                ok == 0 && chipEnable == old(chipEnable) && hum == old(hum) &&
                bus.sent == old(bus.sent) && bus.replies == old(bus.replies) &&
                tpBytes[..] == old(tpBytes[..])
      ensures 0 <= chipToUse <= 1 ==>
                var replies := old(bus.replies);
                var k := InitSteps(replies);
                chipEnable == chipToUse &&
                bus.sent == old(bus.sent) + InitFrames(chipToUse, 0, k) &&
                bus.replies == Drop(replies, k) &&
                (ok == 1 <==> InitSucceeds(replies)) && (ok == 0 || ok == 1) &&
                tpBytes[..] == (if k >= 2 then Splice(old(tpBytes[..]), 0, ReadPayload(ReplyAt(replies, 1), REG_DIG_T1, TP_BYTES))
                                else old(tpBytes[..])) &&
                hum == (if k == 5 then DecodeHumidity(HumidityBytes(replies)) else old(hum))
      ensures ok == 1 ==> Trim() == InitCalibration(old(bus.replies))
    {
      if chipToUse < 0 || chipToUse > 1 { return 0; }
      chipEnable := chipToUse;
      ghost var replies := bus.replies;
      ghost var sent0 := bus.sent;
      ghost var tp0 := tpBytes[..];

      var id := new Byte[1](_ => 0);
      var bytesRead := Read(REG_CHIPID, id, 0, 1);
      assert bus.sent == sent0 + InitFrames(chipToUse, 0, 1);
      assert bytesRead == 1 ==> id[0] == ReadPayload(ReplyAt(replies, 0), REG_CHIPID, 1)[0];
      if bytesRead != 1 || id[0] != CHIP_ID {
        assert InitSteps(replies) == 1;
        return 0;
      }
      assert StepPasses(0, ReplyAt(replies, 0));
      var loaded := LoadTrim(replies);
      ghost var k := InitSteps(replies);
      InitFramesAppend(chipToUse, 0, 1, if k < 4 then k else 4);
      if !loaded {
        return 0;
      }

      ok := Configure(replies);
      InitFramesStep(chipToUse, 0, 4);
      SpliceWhole(tp0, ReadPayload(ReplyAt(replies, 1), REG_DIG_T1, TP_BYTES));
    }

    /** The last step of `bme280_init`: writes CONTROL_SETTING to the control
        register and checks, on the `uint8_t` the count is narrowed to, that
        one byte was written. */
    method Configure(ghost replies: seq<Reply>) returns (ok: int)
      requires Valid() && chipEnable != -1
      requires bus.replies == Drop(replies, 4)
      modifies bus
      ensures bus.sent == old(bus.sent) + [Frame(chipEnable, InitFrame(4))]
      ensures bus.replies == Drop(replies, 5)
      ensures (ok == 1 <==> StepPasses(4, ReplyAt(replies, 4))) && (ok == 0 || ok == 1)
    {
      DropAt(replies, 4, 0);
      var setting := [CONTROL_SETTING];
      assert setting[..1] == setting;
      var written := Write(REG_CONTROL, setting, 1);
      DropStep(replies, 4);
      assert U8(written) == 1 <==> Delivered(ReplyAt(replies, 4), 2) == 2;
      if U8(written) != 1 {
        return 0;
      }
      return 1;
    }

    /** The trim-set part of `bme280_init`: 24 bytes from 0x88 straight into
        the struct, then the humidity trim.  `replies` is the script as it
        stood when the initialisation began; the chip-id step has passed. */
    method LoadTrim(ghost replies: seq<Reply>) returns (loaded: bool)
      requires Valid() && chipEnable != -1
      requires StepPasses(0, ReplyAt(replies, 0)) && bus.replies == Drop(replies, 1)
      modifies this`hum, bus, tpBytes
      ensures Valid()
      ensures var k := InitSteps(replies);
              var m := if k < 4 then k else 4;
              (loaded <==> k == 5) &&
              bus.sent == old(bus.sent) + InitFrames(chipEnable, 1, m) &&
              bus.replies == Drop(replies, m) &&
              tpBytes[..] == Splice(old(tpBytes[..]), 0, ReadPayload(ReplyAt(replies, 1), REG_DIG_T1, TP_BYTES)) &&
              hum == (if k == 5 then DecodeHumidity(HumidityBytes(replies)) else old(hum))
    {
      DropAt(replies, 1, 0);
      var bytesRead := Read(REG_DIG_T1, tpBytes, 0, TP_BYTES);
      DropStep(replies, 1);
      if bytesRead != TP_BYTES {
        return false;
      }
      loaded := LoadHumidityTrim(replies, bytesRead);
      InitFramesAppend(chipEnable, 1, 2, if InitSteps(replies) < 4 then InitSteps(replies) else 4);
    }

    /** The humidity part of the trim read: one byte from 0xA1 into byte 0 of
        a local buffer and seven from 0xE1 into bytes 1..7, each read checked
        against the running total `bytesRead`, then decoded into
        `dig_H1`..`dig_H6`. */
    method LoadHumidityTrim(ghost replies: seq<Reply>, bytesRead: int) returns (loaded: bool)
      requires Valid() && chipEnable != -1 && bytesRead == TP_BYTES
      requires StepPasses(0, ReplyAt(replies, 0)) && StepPasses(1, ReplyAt(replies, 1))
      requires bus.replies == Drop(replies, 2)
      modifies this`hum, bus
      ensures Valid()
      ensures var k := InitSteps(replies);
              var m := if k < 4 then k else 4;
              (loaded <==> k == 5) &&
              bus.sent == old(bus.sent) + InitFrames(chipEnable, 2, m) &&
              bus.replies == Drop(replies, m) &&
              hum == (if k == 5 then DecodeHumidity(HumidityBytes(replies)) else old(hum))
    {
      ghost var sent0 := bus.sent;
      var total := bytesRead;
      var humBuf := new Byte[HUM_BYTES + 1](_ => 0);
      ghost var zeros := humBuf[..];
      DropAt(replies, 2, 0);
      var more := Read(REG_DIG_H1, humBuf, 0, 1);
      DropStep(replies, 2);
      InitFramesStep(chipEnable, 2, 2);
      total := total + more;
      if total != TP_BYTES + 1 {
        return false;
      }
      ghost var p2 := ReadPayload(ReplyAt(replies, 2), REG_DIG_H1, 1);
      DropAt(replies, 3, 0);
      more := Read(REG_DIG_H2, humBuf, 1, HUM_BYTES - 1);
      DropStep(replies, 3);
      InitFramesStep(chipEnable, 2, 3);
      total := total + more;
      if total != TP_BYTES + HUM_BYTES {
        return false;
      }
      SpliceTwo(zeros, p2, ReadPayload(ReplyAt(replies, 3), REG_DIG_H2, HUM_BYTES - 1));
      hum := DecodeHumidity(humBuf[..HUM_BYTES]);
      return true;
    }

    /** `bme280_compensate_T_int32`: compensates a raw temperature and stores
        its `t_fine` for the pressure and humidity formulas. */
    method CompensateTemperature(adcT: int) returns (centiC: int)
      requires Valid() && IsI32(adcT)
      modifies this`tFine
      ensures Valid()
      ensures centiC == CompensateT(Trim().tp, adcT).centiC
      ensures tFine == CompensateT(Trim().tp, adcT).tFine
    {
      var r := CompensateT(DecodeTempPress(tpBytes[..]), adcT);
      tFine := r.tFine;
      return r.centiC;
    }

    /** The three compensation calls of `bme280_read_sensors`, temperature
        first: pressure and humidity see the `t_fine` that temperature just
        stored, so the sample is the one threaded through explicitly. */
    method Compensate(raw: RawSample) returns (s: Sample)
      requires Valid() && ValidRaw(raw)
      modifies this`tFine
      ensures Valid()
      ensures s == CompensateAll(Trim(), raw.adcT, raw.adcP, raw.adcH)
      ensures tFine == CompensateT(Trim().tp, raw.adcT).tFine
    {
      var t := CompensateTemperature(raw.adcT);
      var p := CompensateP(DecodeTempPress(tpBytes[..]), tFine, raw.adcP);
      var h := CompensateH(hum, tFine, raw.adcH);
      s := Sample(t, p, h);
      ghost var all := CompensateAll(Trim(), raw.adcT, raw.adcP, raw.adcH);
      assert s.centiC == all.centiC && s.pressureQ24_8 == all.pressureQ24_8 &&
             s.humidityQ22_10 == all.humidityQ22_10;
    }

    /** The wait at the start of `bme280_read_sensors`: reads the status
        register while its bit 0 says a conversion is running, and gives up
        as soon as a read does not return one byte. */
    method WaitUntilIdle() returns (ready: bool)
      requires Valid()
      modifies bus
      ensures chipEnable == -1 ==>
                !ready && bus.sent == old(bus.sent) && bus.replies == old(bus.replies)
      ensures chipEnable != -1 ==>
                var po := Poll(old(bus.replies));
                ready == po.ready &&
                bus.sent == old(bus.sent) + Repeat(Frame(chipEnable, STATUS_FRAME), po.polls) &&
                bus.replies == Drop(old(bus.replies), po.polls)
    {
      ghost var replies := bus.replies;
      ghost var sent0 := bus.sent;
      ghost var polled: nat := 0;
      var statusBuf := new Byte[1](_ => 1);
      while Bit0(statusBuf[0]) != 0
        invariant chipEnable == -1 ==> polled == 0
        invariant bus.replies == Drop(replies, polled)
        invariant bus.sent == sent0 + Repeat(Frame(chipEnable, STATUS_FRAME), polled)
        invariant Bit0(statusBuf[0]) != 0 ==>
                    Poll(replies) == PollOutcome(polled + Poll(Drop(replies, polled)).polls,
                                                 Poll(Drop(replies, polled)).ready)
        invariant Bit0(statusBuf[0]) == 0 ==> polled >= 1 && Poll(replies) == PollOutcome(polled, true)
        decreases |bus.replies|
      {
        ghost var now := bus.replies;
        var n := Read(REG_STATUS, statusBuf, 0, 1);
        DropStep(replies, polled);
        RepeatStep(Frame(chipEnable, STATUS_FRAME), polled);
        assert U8(n) == 1 <==> n == 1;
        if U8(n) != 1 {
          return false;
        }
        assert statusBuf[0] == StatusByte(ReplyAt(now, 0));
        polled := polled + 1;
      }
      return true;
    }

    /** The retry loop of `bme280_read_sensors`: burst reads of registers
        0xF7..0xFE, at most NUM_ALLOWED_RETRIES + 1 of them, until one
        delivers all eight bytes; the first full burst is decoded. */
    method ReadBurst() returns (found: bool, raw: RawSample)
      requires Valid() && chipEnable != -1
      modifies bus
      ensures var k := FirstFull(old(bus.replies), 0);
              var tries := BurstTries(old(bus.replies));
              bus.sent == old(bus.sent) + Repeat(Frame(chipEnable, BURST_FRAME), tries) &&
              bus.replies == Drop(old(bus.replies), tries) &&
              (found <==> k <= NUM_ALLOWED_RETRIES) &&
              (found ==> raw == DecodeRaw(ReadPayload(ReplyAt(old(bus.replies), k), REG_PRESDATA, BURST_BYTES)))
    {
      ghost var rest := bus.replies;
      ghost var sent0 := bus.sent;
      var buffer := new Byte[BURST_BYTES](_ => 0);
      var retries := 0;
      while retries <= NUM_ALLOWED_RETRIES
        invariant 0 <= retries <= NUM_ALLOWED_RETRIES + 1
        invariant bus.replies == Drop(rest, retries)
        invariant bus.sent == sent0 + Repeat(Frame(chipEnable, BURST_FRAME), retries)
        invariant FirstFull(rest, 0) == FirstFull(rest, retries)
      {
        ghost var before := buffer[..];
        var n := Read(REG_PRESDATA, buffer, 0, BURST_BYTES);
        DropStep(rest, retries);
        DropAt(rest, retries, 0);
        RepeatStep(Frame(chipEnable, BURST_FRAME), retries);
        if n == BURST_BYTES as int {
          SpliceWhole(before, ReadPayload(ReplyAt(rest, retries), REG_PRESDATA, BURST_BYTES));
          return true, DecodeRaw(buffer[..]);
        }
        retries := retries + 1;
      }
      return false, RawSample(0, 0, 0);
    }

    /** `bme280_read_sensors`: waits until no conversion is running, then tries
        the burst read of all three ADC values up to four times and compensates
        the first complete one. */
    method ReadSensors() returns (status: int, sample: Option<Sample>)
      requires Valid()
      modifies this`tFine, bus
      ensures Valid()
      ensures (status == 0 || status == 1) && (sample.Some? <==> status == 1)
      ensures status == 0 ==> tFine == old(tFine)
      ensures chipEnable == -1 ==>
                status == 0 && bus.sent == old(bus.sent) && bus.replies == old(bus.replies)
      ensures chipEnable != -1 ==>
                var po := Poll(old(bus.replies));
                var rest := Drop(old(bus.replies), po.polls);
                var tries := if po.ready then BurstTries(rest) else 0;
                var k := FirstFull(rest, 0);
                bus.sent == old(bus.sent) + Repeat(Frame(chipEnable, STATUS_FRAME), po.polls)
                                          + Repeat(Frame(chipEnable, BURST_FRAME), tries) &&
                bus.replies == Drop(rest, tries) &&
                (status == 1 <==> po.ready && k <= NUM_ALLOWED_RETRIES) &&
                (status == 1 ==>
                   var raw := DecodeRaw(ReadPayload(ReplyAt(rest, k), REG_PRESDATA, BURST_BYTES));
                   sample == Some(CompensateAll(Trim(), raw.adcT, raw.adcP, raw.adcH)) &&
                   tFine == CompensateT(Trim().tp, raw.adcT).tFine)
    {
      ghost var sent0 := bus.sent;
      var ready := WaitUntilIdle();
      if !ready {
        assert Repeat(Frame(chipEnable, BURST_FRAME), 0) == [];
        return 0, None;
      }
      var found, raw := ReadBurst();
      if !found {
        return 0, None;
      }
      var s := Compensate(raw);
      return 1, Some(s);
    }
  }
}
