/** The integer compensation formulas of the BME280 (`bme280_compensate_T_int32`,
    `bme280_compensate_P_int64`, `bme280_compensate_H_int32`).

    Each formula is written operation by operation in the C widths: `int32_t`
    for temperature and humidity, `int64_t` for pressure.  The "fine
    temperature" the source keeps in the global `t_fine` is an explicit
    result of `CompensateT` and an explicit argument of the other two; the
    driver class keeps it as a field, written by T and read by P and H. */
module Compensation {
  import opened FixedWidth
  import opened Calibration

  /** Temperature in hundredths of a degree Celsius, and the fine temperature
      (in units of 1/5120 degree) that pressure and humidity need. */
  datatype TempResult = TempResult(centiC: int, tFine: int)

  // ---------------------------------------------------------------------------
  // Temperature

  /** bme280.c:251-252 */
  function TempVar1(t: TempPressTrim, adcT: int): (r: int)
    ensures IsI32(r)
    ensures t.t2 == 0 ==> r == 0
  {
    Asr(Mul32(Sub32(Asr(adcT, 3), Shl32(t.t1, 1)), t.t2), 11)
  }

  /** bme280.c:253-255 */
  function TempVar2(t: TempPressTrim, adcT: int): (r: int)
    ensures IsI32(r)
    ensures t.t3 == 0 ==> r == 0
  {
    var d := Sub32(Asr(adcT, 4), t.t1);
    Asr(Mul32(Asr(Mul32(d, d), 12), t.t3), 14)
  }

  /** bme280.c:257: the fine temperature scaled to hundredths of a degree. */
  function CentiFromFine(tFine: int): (r: int)
    requires IsI32(tFine)
    ensures IsI32(r)
    ensures -TWO_31 <= 5 * tFine + 128 < TWO_31 ==>
              256 * r <= 5 * tFine + 128 < 256 * r + 256
  {
    Asr(Add32(Mul32(tFine, 5), 128), 8)
  }

  /** `bme280_compensate_T_int32`: `t_fine = var1 + var2`, `T = (t_fine*5 + 128) >> 8`. */
  function CompensateT(t: TempPressTrim, adcT: int): (r: TempResult)
    requires IsI32(adcT)
    ensures IsI32(r.tFine)
    ensures IsI32(5 * r.tFine + 128) ==>
              256 * r.centiC - 128 <= 5 * r.tFine < 256 * r.centiC + 128
  {
    var tFine := Add32(TempVar1(t, adcT), TempVar2(t, adcT));
    TempResult(CentiFromFine(tFine), tFine)
  }

  /** Outside the wrap-around region, a higher fine temperature never reads
      as a lower temperature. */
  lemma CentiFromFineMonotone(a: int, b: int)
    requires IsI32(a) && IsI32(b) && a <= b
    requires IsI32(5 * b + 128) && IsI32(5 * a + 128)
    ensures CentiFromFine(a) <= CentiFromFine(b)
  {
  }

  // ---------------------------------------------------------------------------
  // Pressure

  /** bme280.c:271, 275-276: the denominator of the final division. */
  function PressureDenominator(t: TempPressTrim, tFine: int): (r: int)
    ensures IsI64(r)
    ensures t.p1 == 0 ==> r == 0
  {
    var v1 := Sub64(tFine, 128000);
    var v1' := Add64(Asr(Mul64(Mul64(v1, v1), t.p3), 8), Shl64(Mul64(v1, t.p2), 12));
    Asr(Mul64(Add64(Pow2(47), v1'), t.p1), 33)
  }

  /** bme280.c:271-274: the offset term `var2`. */
  function PressureOffset(t: TempPressTrim, tFine: int): (r: int)
    ensures IsI64(r)
    ensures t.p4 == 0 && t.p5 == 0 && t.p6 == 0 ==> r == 0
  {
    var v1 := Sub64(tFine, 128000);
    var v2 := Mul64(Mul64(v1, v1), t.p6);
    var v2' := Add64(v2, Shl64(Mul64(v1, t.p5), 17));
    Add64(v2', Shl64(t.p4, 35))
  }

  /** bme280.c:282-287, once the denominator is known to be non-zero. */
  function PressureFromTerms(t: TempPressTrim, offset: int, denom: int, adcP: int): (r: int)
    requires denom != 0
    ensures 0 <= r < TWO_32
  {
    var p0 := Sub32(1048576, adcP);
    var p := I64(CDiv(Mul64(Sub64(Shl64(p0, 31), offset), 3125), denom));
    var v1 := Asr(Mul64(Mul64(t.p9, Asr(p, 13)), Asr(p, 13)), 25);
    var v2 := Asr(Mul64(t.p8, p), 19);
    U32(Add64(Asr(Add64(Add64(p, v1), v2), 8), Shl64(t.p7, 4)))
  }

  /** `bme280_compensate_P_int64`: pressure in Pa as Q24.8, or the sentinel 0
      when the denominator is zero; the division is never reached then. */
  function CompensateP(t: TempPressTrim, tFine: int, adcP: int): (r: int)
    ensures 0 <= r < TWO_32
    ensures PressureDenominator(t, tFine) == 0 ==> r == 0
  {
    var denom := PressureDenominator(t, tFine);
    if denom == 0 then 0
    else PressureFromTerms(t, PressureOffset(t, tFine), denom, adcP)
  }

  /** A trim set with P1 = 0 (as an all-zero calibration block decodes to)
      always gives the sentinel. */
  lemma ZeroP1GivesSentinel(t: TempPressTrim, tFine: int, adcP: int)
    requires t.p1 == 0
    ensures PressureDenominator(t, tFine) == 0
    ensures CompensateP(t, tFine, adcP) == 0
  {
  }

  // ---------------------------------------------------------------------------
  // Humidity

  /** Upper bound of the humidity intermediate: 100 %RH in Q22.10, shifted left by 12. */
  const HUMIDITY_LIMIT: int := 419430400

  /** bme280.c:299-307: the humidity intermediate before the clamp. */
  function HumidityRaw(h: HumidityTrim, tFine: int, adcH: int): (r: int)
    ensures IsI32(r)
  {
    var v := Sub32(tFine, 76800);
    var a := Asr(
      Add32(Sub32(Sub32(Shl32(adcH, 14), Shl32(h.h4, 20)), Mul32(h.h5, v)), 16384), 15);
    var inner := Asr(Mul32(Asr(Mul32(v, h.h6), 10), Add32(Asr(Mul32(v, h.h3), 11), 32768)), 10);
    var b := Asr(Add32(Mul32(Add32(inner, 2097152), h.h2), 8192), 14);
    var x := Mul32(a, b);
    Sub32(x, Asr(Mul32(Asr(Mul32(Asr(x, 15), Asr(x, 15)), 7), h.h1), 4))
  }

  /** bme280.c:308-310: clamp to [0, 419430400], then `>> 12`. */
  function ClampHumidity(x: int): (r: int)
    ensures 0 <= r <= HUMIDITY_LIMIT / 4096
    ensures x <= 0 ==> r == 0
    ensures x >= HUMIDITY_LIMIT ==> r == HUMIDITY_LIMIT / 4096
    ensures 0 <= x <= HUMIDITY_LIMIT ==> r * 4096 <= x < r * 4096 + 4096
  {
    var c := if x < 0 then 0 else x;
    var c' := if c > HUMIDITY_LIMIT then HUMIDITY_LIMIT else c;
    U32(Asr(c', 12))
  }

  /** `bme280_compensate_H_int32`: relative humidity in Q22.10, at most
      102400 (100 %RH) whatever the trim, fine temperature and ADC code. */
  function CompensateH(h: HumidityTrim, tFine: int, adcH: int): (r: int)
    ensures 0 <= r <= 102400
    ensures HumidityRaw(h, tFine, adcH) <= 0 ==> r == 0
    ensures HumidityRaw(h, tFine, adcH) >= HUMIDITY_LIMIT ==> r == 102400
  {
    ClampHumidity(HumidityRaw(h, tFine, adcH))
  }

  /** The clamp never saturates falsely: the output is 100 %RH exactly when the
      intermediate reaches the limit, and 0 exactly when it is below 1/1024 %RH. */
  lemma HumidityExtremes(h: HumidityTrim, tFine: int, adcH: int)
    ensures CompensateH(h, tFine, adcH) == 102400 <==> HumidityRaw(h, tFine, adcH) >= HUMIDITY_LIMIT
    ensures CompensateH(h, tFine, adcH) == 0 <==> HumidityRaw(h, tFine, adcH) < 4096
  {
    var x := HumidityRaw(h, tFine, adcH);
    var r := CompensateH(h, tFine, adcH);
    if 0 <= x <= HUMIDITY_LIMIT {
      assert r * 4096 <= x < r * 4096 + 4096;
    }
  }

  // ---------------------------------------------------------------------------
  // The three formulas together

  /** One sample's compensated values, in the source's fixed-point units:
      hundredths of a degree, Q24.8 Pa and Q22.10 %RH. */
  datatype Sample = Sample(centiC: int, pressureQ24_8: int, humidityQ22_10: int)

  /** The order the driver uses: temperature first, then pressure and humidity
      from the fine temperature just computed. */
  function CompensateAll(c: Calib, adcT: int, adcP: int, adcH: int): (s: Sample)
    requires IsI32(adcT)
    ensures 0 <= s.pressureQ24_8 < TWO_32 && 0 <= s.humidityQ22_10 <= 102400
    ensures s.centiC == CompensateT(c.tp, adcT).centiC
    ensures s.pressureQ24_8 == CompensateP(c.tp, CompensateT(c.tp, adcT).tFine, adcP)
    ensures s.humidityQ22_10 == CompensateH(c.hum, CompensateT(c.tp, adcT).tFine, adcH)
  {
    var tr := CompensateT(c.tp, adcT);
    Sample(tr.centiC, CompensateP(c.tp, tr.tFine, adcP), CompensateH(c.hum, tr.tFine, adcH))
  }

  // ---------------------------------------------------------------------------
  // Worked values

  /** A sample trim set, with plausible values for each coefficient. */
  const SAMPLE_TRIM := TempPressTrim(27504, 26435, -1000, 36477, -10685, 3024, 2855, 140, -7, 15500, -14600, 6000)

  /** The sample trim set with P7 changed to -31977. */
  const COLLISION_TRIM := SAMPLE_TRIM.(p7 := -31977)

  // Each step below evaluates a few of the C operations on concrete values.

  lemma SampleTempVar1()
    ensures TempVar1(SAMPLE_TRIM, 519888) == 128793
  {
    assert Asr(519888, 3) == 64986;
    assert Shl32(27504, 1) == 55008;
    assert Sub32(64986, 55008) == 9978;
    assert Mul32(9978, 26435) == 263768430;
    assert Asr(263768430, 11) == 128793;
  }

  lemma SampleTempVar2()
    ensures TempVar2(SAMPLE_TRIM, 519888) == -371
  {
    assert Asr(519888, 4) == 32493;
    assert Sub32(32493, 27504) == 4989;
    assert Mul32(4989, 4989) == 24890121;
    assert Asr(24890121, 12) == 6076;
    assert Mul32(6076, -1000) == -6076000;
    assert Asr(-6076000, 14) == -371;
  }

  lemma SampleT()
    ensures CompensateT(SAMPLE_TRIM, 519888) == TempResult(2508, 128422)
  {
    SampleTempVar1();
    SampleTempVar2();
    assert Add32(128793, -371) == 128422;
    assert Mul32(128422, 5) == 642110;
    assert Add32(642110, 128) == 642238;
    assert Asr(642238, 8) == 2508;
  }

  /** The pressure formula's first term at fine temperature 128422. */
  lemma PressureV1At128422()
    ensures Sub64(128422, 128000) == 422
    ensures Mul64(422, 422) == 178084
  {
  }

  lemma SamplePOffset()
    ensures PressureOffset(SAMPLE_TRIM, 128422) == 98104795527812
  {
    PressureV1At128422();
    assert Mul64(178084, -7) == -1246588;
    assert Mul64(422, 140) == 59080;
    assert Shl64(59080, 17) == 7743733760;
    assert Add64(-1246588, 7743733760) == 7742487172;
    assert Shl64(2855, 35) == 98097053040640;
    assert Add64(7742487172, 98097053040640) == 98104795527812;
  }

  lemma SampleDenominatorTerms()
    ensures Asr(Mul64(178084, 3024), 8) == 2103617
    ensures Shl64(Mul64(422, -10685), 12) == -18469150720
    ensures Add64(2103617, -18469150720) == -18467047103
  {
    assert Mul64(178084, 3024) == 538526016;
    assert Mul64(422, -10685) == -4509070;
  }

  lemma SampleDenominatorScale()
    ensures Add64(Pow2(47), -18467047103) == 140719021308225
    ensures Asr(Mul64(140719021308225, 36477), 33) == 597560748
  {
    assert Pow2(47) == 140737488355328;
    assert Mul64(140719021308225, 36477) == 5133007740260123325;
  }

  lemma SamplePDenominator()
    ensures PressureDenominator(SAMPLE_TRIM, 128422) == 597560748
  {
    PressureV1At128422();
    SampleDenominatorTerms();
    SampleDenominatorScale();
  }

  lemma SampleQuotient()
    ensures I64(CDiv(Mul64(Sub64(Shl64(Sub32(1048576, 415148), 31), 98104795527812), 3125), 597560748)) == 6600644165
  {
    assert Sub32(1048576, 415148) == 633428;
    assert Shl64(633428, 31) == 1360276272185344;
    assert Sub64(1360276272185344, 98104795527812) == 1262171476657532;
    assert Mul64(1262171476657532, 3125) == 3944285864554787500;
    assert CDiv(3944285864554787500, 597560748) == 6600644165;
  }

  lemma SampleCorrections()
    ensures Asr(Mul64(Mul64(6000, Asr(6600644165, 13)), Asr(6600644165, 13)), 25) == 116089612
    ensures Asr(Mul64(-14600, 6600644165), 19) == -183810053
  {
    assert Asr(6600644165, 13) == 805742;
    assert Mul64(6000, 805742) == 4834452000;
    assert Mul64(4834452000, 805742) == 3895321023384000;
    assert Mul64(-14600, 6600644165) == -96369404809000;
  }

  lemma SamplePDivision()
    ensures PressureFromTerms(SAMPLE_TRIM, 98104795527812, 597560748, 415148) == 25767233
  {
    SampleQuotient();
    SampleCorrections();
    SampleSum();
  }

  lemma SampleSum()
    ensures U32(Add64(Asr(Add64(Add64(6600644165, 116089612), -183810053), 8), Shl64(15500, 4))) == 25767233
  {
    assert Add64(6600644165, 116089612) == 6716733777;
    assert Add64(6716733777, -183810053) == 6532923724;
    assert Asr(6532923724, 8) == 25519233;
    assert Shl64(15500, 4) == 248000;
  }

  /** The offset and denominator read only P1..P6, which the two trim sets share. */
  lemma CollisionPOffset()
    ensures PressureOffset(COLLISION_TRIM, 128422) == 98104795527812
  {
    SamplePOffset();
  }

  lemma CollisionPDenominator()
    ensures PressureDenominator(COLLISION_TRIM, 128422) == 597560748
  {
    SamplePDenominator();
  }

  lemma CollisionQuotient()
    ensures I64(CDiv(Mul64(Sub64(Shl64(Sub32(1048576, 990900), 31), 98104795527812), 3125), 597560748)) == 134680194
  {
    assert Sub32(1048576, 990900) == 57676;
    assert Shl64(57676, 31) == 123858266882048;
    assert Sub64(123858266882048, 98104795527812) == 25753471354236;
    assert Mul64(25753471354236, 3125) == 80479597981987500;
    assert CDiv(80479597981987500, 597560748) == 134680194;
  }

  lemma CollisionCorrections()
    ensures Asr(Mul64(Mul64(6000, Asr(134680194, 13)), Asr(134680194, 13)), 25) == 48328
    ensures Asr(Mul64(-14600, 134680194), 19) == -3750479
  {
    assert Asr(134680194, 13) == 16440;
    assert Mul64(6000, 16440) == 98640000;
    assert Mul64(98640000, 16440) == 1621641600000;
    assert Mul64(-14600, 134680194) == -1966330832400;
  }

  lemma CollisionPDivision()
    ensures PressureFromTerms(COLLISION_TRIM, 98104795527812, 597560748, 990900) == 0
  {
    CollisionQuotient();
    CollisionCorrections();
    CollisionSum();
  }

  lemma CollisionSum()
    ensures U32(Add64(Asr(Add64(Add64(134680194, 48328), -3750479), 8), Shl64(-31977, 4))) == 0
  {
    assert Add64(134680194, 48328) == 134728522;
    assert Add64(134728522, -3750479) == 130978043;
    assert Asr(130978043, 8) == 511632;
    assert Shl64(-31977, 4) == -511632;
  }

  /** With the sample trim set, ADC code 519888 reads as 25.08 degC (fine
      temperature 128422), and pressure code 415148 as 25767233 / 256 =
      100653.25 Pa. */
  lemma SampleTrimWorkedExample()
    ensures CompensateT(SAMPLE_TRIM, 519888) == TempResult(2508, 128422)
    ensures CompensateP(SAMPLE_TRIM, 128422, 415148) == 25767233
  {
    SampleT();
    SamplePOffset();
    SamplePDenominator();
    SamplePDivision();
  }

  /** The sentinel is not exclusive: `COLLISION_TRIM` has a non-zero
      denominator and still reads pressure code 990900 as 0, so a caller
      cannot read 0 as "division avoided". */
  lemma SentinelNotExclusive()
    ensures PressureDenominator(COLLISION_TRIM, 128422) != 0
    ensures CompensateP(COLLISION_TRIM, 128422, 990900) == 0
  {
    CollisionPOffset();
    CollisionPDenominator();
    CollisionPDivision();
  }
}
