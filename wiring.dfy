/** The lazy initialisation of wiring.c: the static bitmask `BMEInitMark`
    records which of the three setup steps (the GPIO library, the SPI bus,
    the BME280) have succeeded, and `check_bme_init` retries only the steps
    whose bit is still clear.

    The mark is an `unsigned int`.  It is modelled as a `nat`, with C's `&`
    and `|` defined one bit at a time; the mark starts at 0 and only ever
    gains bits 0, 2 and 3, so it never reaches the 32-bit limit.

    The three setup calls are not part of the model: their results are
    oracle arguments, and each call made is appended to a log. */
module Wiring {

  // ---------------------------------------------------------------------------
  // Bits of non-negative integers

  /** Bit `k` of `m`. */
  function BitOf(m: nat, k: nat): bool
  {
    if k == 0 then m % 2 == 1 else BitOf(m / 2, k - 1)
  }

  /** C's `a & b` on non-negative values. */
  function BitAnd(a: nat, b: nat): (r: nat)
    ensures r <= a && r <= b
    decreases a
  {
    if a == 0 || b == 0 then 0
    else 2 * BitAnd(a / 2, b / 2) + (if a % 2 == 1 && b % 2 == 1 then 1 else 0)
  }

  /** C's `a | b` on non-negative values. */
  function BitOr(a: nat, b: nat): (r: nat)
    ensures a <= r && b <= r && r <= a + b
    decreases a
  {
    if a == 0 then b
    else if b == 0 then a
    else 2 * BitOr(a / 2, b / 2) + (if a % 2 == 1 || b % 2 == 1 then 1 else 0)
  }

  lemma {:induction false} ZeroBits(k: nat)
    ensures !BitOf(0, k)
  {
    if k > 0 {
      ZeroBits(k - 1);
    }
  }

  /** Bit `k` of `a & b` is set exactly when it is set in both. */
  lemma {:induction false} BitAndBits(a: nat, b: nat, k: nat)
    ensures BitOf(BitAnd(a, b), k) == (BitOf(a, k) && BitOf(b, k))
  {
    if a == 0 || b == 0 {
      ZeroBits(k);
    } else if k > 0 {
      BitAndBits(a / 2, b / 2, k - 1);
    }
  }

  /** Bit `k` of `a | b` is set exactly when it is set in either. */
  lemma {:induction false} BitOrBits(a: nat, b: nat, k: nat)
    ensures BitOf(BitOr(a, b), k) == (BitOf(a, k) || BitOf(b, k))
  {
    if a == 0 {
      ZeroBits(k);
    } else if b == 0 {
      ZeroBits(k);
    } else if k > 0 {
      BitOrBits(a / 2, b / 2, k - 1);
    }
  }

  /** Two values with the same bits are equal. */
  lemma {:induction false} SameBits(a: nat, b: nat)
    requires forall k: nat {:trigger BitOf(a, k)} {:trigger BitOf(b, k)} :: BitOf(a, k) == BitOf(b, k)
    ensures a == b
    decreases a + b
  {
    if a != 0 || b != 0 {
      assert BitOf(a, 0) == BitOf(b, 0);
      forall k: nat
        ensures BitOf(a / 2, k) == BitOf(b / 2, k)
      {
        assert BitOf(a, k + 1) == BitOf(b, k + 1);
      }
      SameBits(a / 2, b / 2);
    }
  }

  // ---------------------------------------------------------------------------
  // The mark bits

  /** The mark bits (wiring.h:8, 16-17): 1, `1 << 2` and `1 << 3`. */
  const WIRINGPI_SETUP: nat := 1
  const SPI_SETUP: nat := 4
  const BME_INIT: nat := 8
  /** All three bits, the value a fully initialised mark holds. */
  const ALL_SETUP: nat := 13

  /** The SPI channel and clock the bus is set up with (wiring.h:13-14); the
      channel is also the chip select handed to `bme280_init`. */
  const SPI_CHANNEL: int := 0
  const SPI_CLOCK: int := 1000000

  /** `mask_check`: 1 when every bit of `mask` is set in `check`, else 0. */
  function MaskCheck(check: nat, mask: nat): (r: int)
    ensures r == 0 || r == 1
  {
    if BitAnd(check, mask) == mask then 1 else 0
  }

  /** Every bit set in `mask` is set in `check`. */
  ghost predicate Covers(check: nat, mask: nat)
  {
    forall k: nat {:trigger BitOf(mask, k)} :: BitOf(mask, k) ==> BitOf(check, k)
  }

  /** `mask_check` passes exactly when every bit of the mask is set in the
      value checked. */
  lemma MaskCheckMeaning(check: nat, mask: nat)
    ensures MaskCheck(check, mask) == 1 <==> Covers(check, mask)
  {
    if Covers(check, mask) {
      forall k: nat
        ensures BitOf(BitAnd(check, mask), k) == BitOf(mask, k)
      {
        BitAndBits(check, mask, k);
      }
      SameBits(BitAnd(check, mask), mask);
    }
    if MaskCheck(check, mask) == 1 {
      forall k: nat | BitOf(mask, k)
        ensures BitOf(check, k)
      {
        BitAndBits(check, mask, k);
      }
    }
  }

  // ---------------------------------------------------------------------------
  // The three setup steps, in the order `check_bme_init` walks them

  datatype SetupStep = GpioSetup | SpiSetup | SensorInit

  const STEPS: seq<SetupStep> := [GpioSetup, SpiSetup, SensorInit]

  /** A step's mark and the position of its one bit. */
  function StepMask(s: SetupStep): nat
  {
    match s
    case GpioSetup => WIRINGPI_SETUP
    case SpiSetup => SPI_SETUP
    case SensorInit => BME_INIT
  }

  function StepPos(s: SetupStep): nat
  {
    match s
    case GpioSetup => 0
    case SpiSetup => 2
    case SensorInit => 3
  }

  /** Whether a mark records step `s` as done. */
  predicate Done(mark: nat, s: SetupStep)
  {
    BitOf(mark, StepPos(s))
  }

  /** A value below 16 has no bit from 4 on. */
  lemma NoHighBits(m: nat, k: nat)
    requires m < 16 && k >= 4
    ensures !BitOf(m, k)
  {
    ZeroBits(k - 4);
    assert BitOf(m / 8, k - 3) == BitOf(m / 16, k - 4);
    assert BitOf(m / 4, k - 2) == BitOf(m / 8, k - 3);
    assert BitOf(m / 2, k - 1) == BitOf(m / 4, k - 2);
  }

  /** Each step's mark has exactly one bit, at the step's position. */
  lemma StepMaskBits(s: SetupStep, k: nat)
    ensures BitOf(StepMask(s), k) <==> k == StepPos(s)
  {
    if k >= 4 {
      NoHighBits(StepMask(s), k);
    } else if k == 0 {
      assert BitOf(StepMask(s), 0) <==> s == GpioSetup;
    } else if k == 1 {
      assert !BitOf(StepMask(s), 1);
    } else if k == 2 {
      assert BitOf(StepMask(s), 2) <==> s == SpiSetup;
    } else {
      assert BitOf(StepMask(s), 3) <==> s == SensorInit;
    }
  }

  /** `ALL_SETUP` has exactly the three step bits. */
  lemma AllSetupBits(k: nat)
    ensures BitOf(ALL_SETUP, k) <==> k == 0 || k == 2 || k == 3
  {
    if k >= 4 {
      NoHighBits(ALL_SETUP, k);
    } else if k == 0 {
      assert BitOf(ALL_SETUP, 0);
    } else if k == 1 {
      assert !BitOf(ALL_SETUP, 1);
    } else if k == 2 {
      assert BitOf(ALL_SETUP, 2);
    } else {
      assert BitOf(ALL_SETUP, 3);
    }
  }

  /** `mask_check` on a step's mark asks whether the step is done. */
  lemma MaskCheckStep(mark: nat, s: SetupStep)
    ensures MaskCheck(mark, StepMask(s)) == 1 <==> Done(mark, s)
  {
    MaskCheckMeaning(mark, StepMask(s));
    StepMaskBits(s, StepPos(s));
    forall k: nat | BitOf(StepMask(s), k)
      ensures k == StepPos(s)
    {
      StepMaskBits(s, k);
    }
  }

  /** `mask_check` on `ALL_SETUP` asks whether all three steps are done. */
  lemma MaskCheckAll(mark: nat)
    ensures MaskCheck(mark, ALL_SETUP) == 1 <==>
            Done(mark, GpioSetup) && Done(mark, SpiSetup) && Done(mark, SensorInit)
  {
    MaskCheckMeaning(mark, ALL_SETUP);
    AllSetupBits(0);
    AllSetupBits(2);
    AllSetupBits(3);
    forall k: nat | BitOf(ALL_SETUP, k)
      ensures k == 0 || k == 2 || k == 3
    {
      AllSetupBits(k);
    }
  }

  /** OR-ing a step's mark in sets that step's bit and no other. */
  lemma OrStepBits(mark: nat, s: SetupStep, k: nat)
    ensures BitOf(BitOr(mark, StepMask(s)), k) <==> BitOf(mark, k) || k == StepPos(s)
  {
    BitOrBits(mark, StepMask(s), k);
    StepMaskBits(s, k);
  }

  /** OR-ing in the mark of a step already done changes nothing. */
  lemma OrDoneStep(mark: nat, s: SetupStep)
    requires Done(mark, s)
    ensures BitOr(mark, StepMask(s)) == mark
  {
    forall k: nat
      ensures BitOf(BitOr(mark, StepMask(s)), k) == BitOf(mark, k)
    {
      OrStepBits(mark, s, k);
    }
    SameBits(BitOr(mark, StepMask(s)), mark);
  }

  /** A call into the hardware libraries, with its arguments. */
  datatype SetupCall = WiringPiSetup | WiringPiSPISetup(channel: int, clock: int) | Bme280Init(chip: int)

  function CallOf(s: SetupStep): SetupCall
  {
    match s
    case GpioSetup => WiringPiSetup
    case SpiSetup => WiringPiSPISetup(SPI_CHANNEL, SPI_CLOCK)
    case SensorInit => Bme280Init(SPI_CHANNEL)
  }

  /** What the three setup calls return when made. */
  datatype SetupResults = SetupResults(wiringPiSetup: int, spiSetup: int, bmeInit: int)

  /** Each call's own notion of success: `wiringPiSetup` returns 0, the SPI
      setup a non-negative descriptor, and `bme280_init` 1. */
  predicate StepSucceeds(s: SetupStep, o: SetupResults)
  {
    match s
    case GpioSetup => o.wiringPiSetup == 0
    case SpiSetup => o.spiSetup >= 0
    case SensorInit => o.bmeInit == 1
  }

  // ---------------------------------------------------------------------------
  // `check_bme_init`

  /** One block of `check_bme_init`: the step's call is made only when its
      bit is clear; a failed call ends the function with the mark untouched,
      otherwise the bit is OR-ed in (whether or not it was set). */
  datatype StepOutcome = StepOutcome(mark: nat, called: bool, failed: bool)

  function Attempt(mark: nat, s: SetupStep, o: SetupResults): (r: StepOutcome)
    ensures r.failed <==> r.called && !StepSucceeds(s, o)
    ensures r.failed ==> r.mark == mark
    ensures mark <= r.mark <= mark + StepMask(s)
  {
    var attempted := MaskCheck(mark, StepMask(s)) != 1;
    if attempted && !StepSucceeds(s, o) then StepOutcome(mark, true, true)
    else StepOutcome(BitOr(mark, StepMask(s)), attempted, false)
  }

  /** The call a block made, as a log entry. */
  function CallsOf(s: SetupStep, called: bool): seq<SetupCall>
  {
    if called then [CallOf(s)] else []
  }

  /** The mark afterwards, the calls made, and the value returned. */
  datatype InitOutcome = InitOutcome(mark: nat, calls: seq<SetupCall>, result: int)

  /** `check_bme_init` on a mark, the calls answering as `o` says. */
  function CheckInit(mark: nat, o: SetupResults): (r: InitOutcome)
    ensures r.result == 1 || r.result == -1
    ensures mark <= r.mark <= mark + ALL_SETUP
    ensures |r.calls| <= |STEPS|
  {
    var a := Attempt(mark, GpioSetup, o);
    if a.failed then InitOutcome(a.mark, CallsOf(GpioSetup, true), -1)
    else
      var b := Attempt(a.mark, SpiSetup, o);
      var ab := CallsOf(GpioSetup, a.called) + CallsOf(SpiSetup, b.called);
      if b.failed then InitOutcome(b.mark, ab, -1)
      else
        var c := Attempt(b.mark, SensorInit, o);
        InitOutcome(c.mark, ab + CallsOf(SensorInit, c.called), if c.failed then -1 else 1)
  }

  /** The reference for the calls: one per step among the first `k` that the
      mark does not record as done, in step order. */
  function Pending(mark: nat, k: nat): seq<SetupCall>
    requires k <= |STEPS|
  {
    if k == 0 then []
    else Pending(mark, k - 1) + (if Done(mark, STEPS[k - 1]) then [] else [CallOf(STEPS[k - 1])])
  }

  /** One block: the call is made exactly when the step is not done; the
      block fails exactly when the call was made and failed; a bit is set
      afterwards exactly when it was set before or it is this step's bit
      and the block did not fail. */
  lemma AttemptMeaning(mark: nat, s: SetupStep, o: SetupResults, k: nat)
    ensures var r := Attempt(mark, s, o);
            (r.called <==> !Done(mark, s)) &&
            (r.failed <==> r.called && !StepSucceeds(s, o)) &&
            (BitOf(r.mark, k) <==> BitOf(mark, k) || (k == StepPos(s) && !r.failed))
  {
    MaskCheckStep(mark, s);
    OrStepBits(mark, s, k);
  }

  /** A block whose step is done does nothing at all. */
  lemma AttemptSkips(mark: nat, s: SetupStep, o: SetupResults)
    requires Done(mark, s)
    ensures Attempt(mark, s, o) == StepOutcome(mark, false, false)
  {
    MaskCheckStep(mark, s);
    OrDoneStep(mark, s);
  }

  /** Bits are only ever added, and only the three step bits. */
  lemma CheckInitOnlyAdds(mark: nat, o: SetupResults, k: nat)
    ensures var r := CheckInit(mark, o);
            (BitOf(mark, k) ==> BitOf(r.mark, k)) &&
            (k != 0 && k != 2 && k != 3 ==> BitOf(r.mark, k) == BitOf(mark, k))
  {
    var a := Attempt(mark, GpioSetup, o);
    var b := Attempt(a.mark, SpiSetup, o);
    AttemptMeaning(mark, GpioSetup, o, k);
    AttemptMeaning(a.mark, SpiSetup, o, k);
    AttemptMeaning(b.mark, SensorInit, o, k);
  }

  /** `check_bme_init` returns 1 or -1, and 1 exactly when all three steps
      are done afterwards, which is when the mark passes `mask_check` against
      `ALL_SETUP`. */
  lemma CheckInitResult(mark: nat, o: SetupResults)
    ensures var r := CheckInit(mark, o);
            (r.result == 1 || r.result == -1) &&
            (r.result == 1 <==> Done(r.mark, GpioSetup) && Done(r.mark, SpiSetup) && Done(r.mark, SensorInit)) &&
            (r.result == 1 <==> MaskCheck(r.mark, ALL_SETUP) == 1)
  {
    var a := Attempt(mark, GpioSetup, o);
    var b := Attempt(a.mark, SpiSetup, o);
    AttemptMeaning(mark, GpioSetup, o, 0);
    AttemptMeaning(a.mark, SpiSetup, o, 0);
    AttemptMeaning(a.mark, SpiSetup, o, 2);
    AttemptMeaning(b.mark, SensorInit, o, 0);
    AttemptMeaning(b.mark, SensorInit, o, 2);
    AttemptMeaning(b.mark, SensorInit, o, 3);
    MaskCheckAll(CheckInit(mark, o).mark);
  }

  /** The reference for where `check_bme_init` stops: the first step from
      `i` on that is not done and whose call fails, or `|STEPS|` if there is
      none. */
  function FirstFailure(mark: nat, o: SetupResults, i: nat): (n: nat)
    requires i <= |STEPS|
    ensures i <= n <= |STEPS|
    ensures n < |STEPS| ==> !Done(mark, STEPS[n]) && !StepSucceeds(STEPS[n], o)
    ensures forall j {:trigger STEPS[j]} :: i <= j < n ==> Done(mark, STEPS[j]) || StepSucceeds(STEPS[j], o)
    decreases |STEPS| - i
  {
    if i == |STEPS| then i
    else if !Done(mark, STEPS[i]) && !StepSucceeds(STEPS[i], o) then i
    else FirstFailure(mark, o, i + 1)
  }

  /** `check_bme_init` fails exactly when some step that is not done fails;
      the calls it makes are the pending ones (the steps not done, in order)
      up to and including that step. */
  lemma CheckInitCalls(mark: nat, o: SetupResults)
    ensures var r := CheckInit(mark, o);
            var n := FirstFailure(mark, o, 0);
            (r.result == 1 <==> n == |STEPS|) &&
            r.calls == Pending(mark, if n == |STEPS| then n else n + 1)
  {
    var a := Attempt(mark, GpioSetup, o);
    var b := Attempt(a.mark, SpiSetup, o);
    AttemptMeaning(mark, GpioSetup, o, 0);
    AttemptMeaning(mark, GpioSetup, o, 2);
    AttemptMeaning(mark, GpioSetup, o, 3);
    AttemptMeaning(a.mark, SpiSetup, o, 3);
    AttemptMeaning(a.mark, SpiSetup, o, 2);
    AttemptMeaning(b.mark, SensorInit, o, 3);
    CheckInitResult(mark, o);
    assert Pending(mark, 1) == CallsOf(GpioSetup, a.called);
    if !a.failed {
      assert FirstFailure(mark, o, 0) == FirstFailure(mark, o, 1);
      assert Pending(mark, 2) == CallsOf(GpioSetup, a.called) + CallsOf(SpiSetup, b.called);
      if !b.failed {
        assert FirstFailure(mark, o, 1) == FirstFailure(mark, o, 2);
      }
    }
  }

  /** After `check_bme_init` every step before the one that failed (all
      three on success) is done, the failed step is still not done, and the
      steps after it are as they were. */
  lemma CheckInitProgress(mark: nat, o: SetupResults)
    ensures var r := CheckInit(mark, o);
            var n := FirstFailure(mark, o, 0);
            (forall i {:trigger STEPS[i]} :: 0 <= i < n ==> Done(r.mark, STEPS[i])) &&
            (forall i {:trigger STEPS[i]} :: n <= i < |STEPS| ==> Done(r.mark, STEPS[i]) == Done(mark, STEPS[i]))
  {
    var a := Attempt(mark, GpioSetup, o);
    var b := Attempt(a.mark, SpiSetup, o);
    AttemptMeaning(mark, GpioSetup, o, 0);
    AttemptMeaning(mark, GpioSetup, o, 2);
    AttemptMeaning(mark, GpioSetup, o, 3);
    AttemptMeaning(a.mark, SpiSetup, o, 0);
    AttemptMeaning(a.mark, SpiSetup, o, 2);
    AttemptMeaning(a.mark, SpiSetup, o, 3);
    AttemptMeaning(b.mark, SensorInit, o, 0);
    AttemptMeaning(b.mark, SensorInit, o, 2);
    AttemptMeaning(b.mark, SensorInit, o, 3);
    if !a.failed {
      assert FirstFailure(mark, o, 0) == FirstFailure(mark, o, 1);
      if !b.failed {
        assert FirstFailure(mark, o, 1) == FirstFailure(mark, o, 2);
      }
    }
  }

  /** A step that is done is not among the pending calls. */
  lemma {:induction false} PendingSkipsDone(mark: nat, k: nat, s: SetupStep)
    requires k <= |STEPS|
    requires Done(mark, s)
    ensures CallOf(s) !in Pending(mark, k)
  {
    if k > 0 {
      PendingSkipsDone(mark, k - 1, s);
    }
  }

  /** A step that is done is never called again. */
  lemma CheckInitSkipsDone(mark: nat, o: SetupResults, s: SetupStep)
    requires Done(mark, s)
    ensures CallOf(s) !in CheckInit(mark, o).calls
  {
    CheckInitCalls(mark, o);
    var n := FirstFailure(mark, o, 0);
    PendingSkipsDone(mark, if n == |STEPS| then n else n + 1, s);
  }

  /** When all three steps are done, `check_bme_init` returns 1 without
      calling anything and leaves the mark as it was. */
  lemma CheckInitIdempotent(mark: nat, o: SetupResults)
    requires MaskCheck(mark, ALL_SETUP) == 1
    ensures CheckInit(mark, o) == InitOutcome(mark, [], 1)
  {
    MaskCheckAll(mark);
    AttemptSkips(mark, GpioSetup, o);
    AttemptSkips(mark, SpiSetup, o);
    AttemptSkips(mark, SensorInit, o);
  }

  /** After a successful `check_bme_init`, the next one does nothing. */
  lemma CheckInitTwice(mark: nat, o: SetupResults, o2: SetupResults)
    requires CheckInit(mark, o).result == 1
    ensures var r := CheckInit(mark, o);
            CheckInit(r.mark, o2) == InitOutcome(r.mark, [], 1)
  {
    CheckInitResult(mark, o);
    CheckInitIdempotent(CheckInit(mark, o).mark, o2);
  }

  // ---------------------------------------------------------------------------
  // `setupWiring`

  /** `setupWiring`'s effect on the mark: the GPIO step's bit is OR-ed in
      when `wiringPiSetup` returned 0. */
  function SetupMark(mark: nat, setupResult: int): (r: nat)
    ensures mark <= r <= mark + WIRINGPI_SETUP
    ensures setupResult != 0 ==> r == mark
  {
    if setupResult == 0 then BitOr(mark, WIRINGPI_SETUP) else mark
  }

  /** `setupWiring` records the GPIO step as done exactly when
      `wiringPiSetup` returned 0 (or it was done already), and touches no
      other bit. */
  lemma SetupMarkBits(mark: nat, setupResult: int, k: nat)
    ensures BitOf(SetupMark(mark, setupResult), k) <==>
            BitOf(mark, k) || (k == StepPos(GpioSetup) && setupResult == 0)
  {
    OrStepBits(mark, GpioSetup, k);
  }

  /** Once `setupWiring` has succeeded, no later `check_bme_init` calls
      `wiringPiSetup` again. */
  lemma NoSecondGpioSetup(mark: nat, o: SetupResults)
    ensures WiringPiSetup !in CheckInit(SetupMark(mark, 0), o).calls
  {
    SetupMarkBits(mark, 0, 0);
    CheckInitSkipsDone(SetupMark(mark, 0), o, GpioSetup);
  }

  class Wiring {
    /** `BMEInitMark`. */
    var mark: nat
    /** Every setup call made, oldest first. */
    var calls: seq<SetupCall>

    /** Program start: no step done. */
    constructor ()
      ensures mark == 0 && calls == []
    {
      mark := 0;
      calls := [];
    }

    /** `check_bme_init`, the three calls answering as `o` says. */
    method CheckBmeInit(o: SetupResults) returns (r: int)
      modifies this
      ensures var w := CheckInit(old(mark), o);
              mark == w.mark && calls == old(calls) + w.calls && r == w.result
    {
      ghost var mark0, calls0 := mark, calls;
      ghost var a := Attempt(mark0, GpioSetup, o);
      if MaskCheck(mark, WIRINGPI_SETUP) != 1 {
        calls := calls + [WiringPiSetup];
        if o.wiringPiSetup != 0 {
          return -1;
        }
      }
      mark := BitOr(mark, WIRINGPI_SETUP);
      assert mark == a.mark && calls == calls0 + CallsOf(GpioSetup, a.called);

      ghost var b := Attempt(mark, SpiSetup, o);
      if MaskCheck(mark, SPI_SETUP) != 1 {
        calls := calls + [WiringPiSPISetup(SPI_CHANNEL, SPI_CLOCK)];
        if o.spiSetup < 0 {
          return -1;
        }
      }
      mark := BitOr(mark, SPI_SETUP);
      assert mark == b.mark && calls == calls0 + CallsOf(GpioSetup, a.called) + CallsOf(SpiSetup, b.called);

      if MaskCheck(mark, BME_INIT) != 1 {
        calls := calls + [Bme280Init(SPI_CHANNEL)];
        if o.bmeInit != 1 {
          return -1;
        }
      }
      mark := BitOr(mark, BME_INIT);
      return 1;
    }

    /** The mark-setting part of `setupWiring`: `wiringPiSetup` is called, and
        the GPIO step's bit is set when it returns 0. */
    method SetupWiring(setupResult: int)
      modifies this
      ensures mark == SetupMark(old(mark), setupResult)
      ensures calls == old(calls) + [WiringPiSetup]
    {
      calls := calls + [WiringPiSetup];
      if setupResult == 0 {
        mark := BitOr(mark, WIRINGPI_SETUP);
      }
    }
  }
}
