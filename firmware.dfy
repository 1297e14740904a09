/*
 * The firmware's `main` (stm32f411-blackpill/src/main.c:126-208): enable the
 * clocks of GPIO ports A and C, configure PA0 as a pulled-up input (the
 * button) and PC13 as a push-pull output (the LED), then poll the button
 * forever, writing the LED's BSRR word and spinning in a debounce loop.
 *
 * The memory-mapped registers are the fields of an Mcu object, one bv32 field
 * per register that `main` reaches through its register pointers; every access
 * through such a pointer becomes a read or an assignment of that field.
 */
module Firmware {
  import opened BitFields

  /** A C `int` on the target. */
  type Int32 = x: int | -0x8000_0000 <= x < 0x8000_0000

  /** Outer and inner bounds of the debounce busy-wait. */
  const DebounceCount: Int32 := 5
  const DebounceDelay: Int32 := 1000

  /** The value of RCC_AHB1ENR after the two clock-enable read-modify-writes:
      the port A and port C enable bits are set and every other bit is kept. */
  function ClocksEnabled(r: bv32): (c: bv32)
    ensures Bit(c, 0) && Bit(c, 2)
    ensures forall k: BitIndex :: k != 0 && k != 2 ==> Bit(c, k) == Bit(r, k)
  {
    var c := (r | GpioaEn) | GpiocEn;
    assert forall k: BitIndex :: k != 0 && k != 2 ==> Bit(c, k) == Bit(r, k) by {
      forall k: BitIndex | k != 0 && k != 2 ensures Bit(c, k) == Bit(r, k) {
        ClocksEnabledKeepsBit(r, k);
      }
    }
    c
  }

  lemma ClocksEnabledKeepsBit(r: bv32, k: BitIndex)
    requires k != 0 && k != 2
    ensures Bit((r | GpioaEn) | GpiocEn, k) == Bit(r, k)
  {
  }

  /** Enabling the clocks a second time changes nothing. */
  lemma ClocksEnabledIdempotent(r: bv32)
    ensures ClocksEnabled(ClocksEnabled(r)) == ClocksEnabled(r)
  {
  }

  /** From the all-zero value the clock enables leave exactly bits 0 and 2 set. */
  lemma ClocksEnabledFromZero()
    ensures ClocksEnabled(0) == 0x0000_0005
  {
  }

  /** The BSRR word one poll step writes for an IDR value of port A: the LED
      pin's set word exactly when pin 0 reads low (the button is active-low and
      pressed), its reset word exactly when pin 0 reads high. */
  function LedCommand(idr: bv32): (w: bv32)
    ensures w == BsrrSet(13) <==> !Bit(idr, 0)
    ensures w == BsrrReset(13) <==> Bit(idr, 0)
  {
    BsrrSetResetDisjoint(13, 13);
    if idr & IdrMask(0) == 0 then BsrrSet(13) else BsrrReset(13)
  }

  /** The word written depends on IDR bit 0 alone. */
  lemma LedCommandOnlyReadsButton(a: bv32, b: bv32)
    requires Bit(a, 0) == Bit(b, 0)
    ensures LedCommand(a) == LedCommand(b)
  {
  }

  /** The debounce busy-wait of one polling pass, with `i` carried over from the
      previous pass (never reset) and `j` its last value. The outer loop runs
      until i reaches DebounceCount, each outer iteration spinning the inner
      loop DebounceDelay times; `spins` counts the inner iterations. */
  method Debounce(i0: Int32, j0: Int32) returns (i: Int32, j: Int32, ghost spins: nat)
    ensures i == if i0 < DebounceCount then DebounceCount else i0
    ensures j == if i0 < DebounceCount then DebounceDelay else j0
    ensures spins == if i0 < DebounceCount then (DebounceCount - i0) * DebounceDelay else 0
  {
    i, j, spins := i0, j0, 0;
    while i < DebounceCount
      invariant i0 <= i && (i0 < DebounceCount ==> i <= DebounceCount)
      invariant DebounceCount <= i0 ==> i == i0
      invariant i == i0 ==> j == j0
      invariant i != i0 ==> j == DebounceDelay
      invariant spins == (i - i0) * DebounceDelay
    {
      i := i + 1;
      j := 0;
      while j < DebounceDelay
        invariant 0 <= j <= DebounceDelay
        invariant spins == (i - 1 - i0) * DebounceDelay + j
      {
        j := j + 1;
        spins := spins + 1;
      }
    }
  }

  /** The registers `main` reaches through its eight register pointers, one
      field per 32-bit cell. The cells lie at pairwise disjoint addresses
      (Registers.RegistersDisjoint), so a write to one field never changes
      another. */
  class Mcu {
    var ahb1enr: bv32      // RCC_AHB1ENR
    var gpioaModer: bv32   // GPIOA_MODER
    var gpioaPupdr: bv32   // GPIOA_PUPDR
    var gpioaIdr: bv32     // GPIOA_IDR, driven by the button pin
    var gpiocModer: bv32   // GPIOC_MODER
    var gpiocOtyper: bv32  // GPIOC_OTYPER
    var gpiocPupdr: bv32   // GPIOC_PUPDR
    var gpiocBsrr: bv32    // GPIOC_BSRR, written by the polling loop

    /** The registers hold their values at reset, whatever those are. */
    constructor (ahb1enr: bv32, gpioaModer: bv32, gpioaPupdr: bv32, gpioaIdr: bv32,
                 gpiocModer: bv32, gpiocOtyper: bv32, gpiocPupdr: bv32, gpiocBsrr: bv32)
      ensures this.ahb1enr == ahb1enr && this.gpioaIdr == gpioaIdr && this.gpiocBsrr == gpiocBsrr
      ensures this.gpioaModer == gpioaModer && this.gpioaPupdr == gpioaPupdr
      ensures this.gpiocModer == gpiocModer && this.gpiocOtyper == gpiocOtyper
      ensures this.gpiocPupdr == gpiocPupdr
    {
      this.ahb1enr := ahb1enr;
      this.gpioaModer := gpioaModer;
      this.gpioaPupdr := gpioaPupdr;
      this.gpioaIdr := gpioaIdr;
      this.gpiocModer := gpiocModer;
      this.gpiocOtyper := gpiocOtyper;
      this.gpiocPupdr := gpiocPupdr;
      this.gpiocBsrr := gpiocBsrr;
    }

    /** Turn on the clocks of GPIO ports A and C, one read-modify-write each. */
    method EnableClocks()
      modifies this`ahb1enr
      ensures ahb1enr == ClocksEnabled(old(ahb1enr))
    {
      var reg := ahb1enr;
      reg := reg | GpioaEn;
      ahb1enr := reg;

      reg := ahb1enr;
      reg := reg | GpiocEn;
      ahb1enr := reg;
    }

    /** Configure PA0 (the button) as an input with the pull-up on. */
    method ConfigureButton()
      modifies this`gpioaModer, this`gpioaPupdr
      ensures gpioaModer == SetModer(old(gpioaModer), 0, ModerInput)
      ensures gpioaPupdr == SetPupdr(old(gpioaPupdr), 0, PupdrPullUp)
    {
      ModerRmw(gpioaModer, 0, ModerInput);
      PupdrRmw(gpioaPupdr, 0, PupdrPullUp);

      var reg := gpioaModer;
      reg := reg & !ModerMask(0);
      reg := reg | (ModerInput << ModerShift(0));
      gpioaModer := reg;

      reg := gpioaPupdr;
      reg := reg & !PupdrMask(0);
      reg := reg | (PupdrPullUp << PupdrShift(0));
      gpioaPupdr := reg;
    }

    /** Configure PC13 (the LED) as a push-pull output with no pull resistor. */
    method ConfigureLed()
      modifies this`gpiocModer, this`gpiocOtyper, this`gpiocPupdr
      ensures gpiocModer == SetModer(old(gpiocModer), 13, ModerOutput)
      ensures gpiocOtyper == SetOtype(old(gpiocOtyper), 13, OtypePushPull)
      ensures gpiocPupdr == SetPupdr(old(gpiocPupdr), 13, PupdrNone)
    {
      ModerRmw(gpiocModer, 13, ModerOutput);
      OtRmw(gpiocOtyper, 13, OtypePushPull);
      PupdrRmw(gpiocPupdr, 13, PupdrNone);

      var reg := gpiocModer;
      reg := reg & !ModerMask(13);
      reg := reg | (ModerOutput << ModerShift(13));
      gpiocModer := reg;

      reg := gpiocOtyper;
      reg := reg & !OtMask(13);
      reg := reg | (OtypePushPull << OtShift(13));
      gpiocOtyper := reg;

      reg := gpiocPupdr;
      reg := reg & !PupdrMask(13);
      reg := reg | (PupdrNone << PupdrShift(13));
      gpiocPupdr := reg;
    }

    /** The whole initialisation sequence of `main`: both port clocks on, PA0 an
        input with pull-up, PC13 a push-pull output without pull; every other
        bit of AHB1ENR and every other pin of both ports as it was; IDR and
        BSRR untouched. */
    method Init()
      modifies this`ahb1enr, this`gpioaModer, this`gpioaPupdr,
               this`gpiocModer, this`gpiocOtyper, this`gpiocPupdr
      ensures ahb1enr == ClocksEnabled(old(ahb1enr))
      ensures gpioaModer == SetModer(old(gpioaModer), 0, ModerInput)
      ensures gpioaPupdr == SetPupdr(old(gpioaPupdr), 0, PupdrPullUp)
      ensures gpiocModer == SetModer(old(gpiocModer), 13, ModerOutput)
      ensures gpiocOtyper == SetOtype(old(gpiocOtyper), 13, OtypePushPull)
      ensures gpiocPupdr == SetPupdr(old(gpiocPupdr), 13, PupdrNone)
      ensures Bit(ahb1enr, 0) && Bit(ahb1enr, 2)
      ensures forall k: BitIndex :: k != 0 && k != 2 ==> Bit(ahb1enr, k) == Bit(old(ahb1enr), k)
      ensures ModerField(gpioaModer, 0) == ModerInput && PupdrField(gpioaPupdr, 0) == PupdrPullUp
      ensures ModerField(gpiocModer, 13) == ModerOutput && OtField(gpiocOtyper, 13) == OtypePushPull
      ensures PupdrField(gpiocPupdr, 13) == PupdrNone
      ensures forall m: Pin :: m != 0 ==>
        ModerField(gpioaModer, m) == ModerField(old(gpioaModer), m) &&
        PupdrField(gpioaPupdr, m) == PupdrField(old(gpioaPupdr), m)
      ensures forall m: Pin :: m != 13 ==>
        ModerField(gpiocModer, m) == ModerField(old(gpiocModer), m) &&
        PupdrField(gpiocPupdr, m) == PupdrField(old(gpiocPupdr), m)
      ensures forall k: BitIndex :: k != 13 ==> Bit(gpiocOtyper, k) == Bit(old(gpiocOtyper), k)
    {
      EnableClocks();
      ConfigureButton();
      ConfigureLed();
    }

    /** One pass of the polling loop: sample the button on IDR bit 0, write the
        LED's set or reset word to BSRR, then run the debounce busy-wait. */
    method Poll(i0: Int32, j0: Int32) returns (i: Int32, j: Int32, ghost spins: nat)
      modifies this`gpiocBsrr
      ensures gpiocBsrr == LedCommand(gpioaIdr)
      ensures i == if i0 < DebounceCount then DebounceCount else i0
      ensures j == if i0 < DebounceCount then DebounceDelay else j0
      ensures spins == if i0 < DebounceCount then (DebounceCount - i0) * DebounceDelay else 0
    {
      if gpioaIdr & IdrMask(0) == 0 {
        gpiocBsrr := BsrrSet(13);
      } else {
        gpiocBsrr := BsrrReset(13);
      }
      i, j, spins := Debounce(i0, j0);
    }

    /** A bounded run of the polling loop: before pass p the hardware presents
        inputs[p] in port A's IDR. Pass p writes the LED command for inputs[p];
        since `i` is never reset, only the first pass spins. */
    method Run(inputs: seq<bv32>, i0: Int32, j0: Int32)
      returns (i: Int32, j: Int32, ghost writes: seq<bv32>, ghost spins: nat)
      modifies this`gpioaIdr, this`gpiocBsrr
      ensures |writes| == |inputs|
      ensures forall p :: 0 <= p < |inputs| ==> writes[p] == LedCommand(inputs[p])
      ensures inputs == [] ==> gpioaIdr == old(gpioaIdr) && gpiocBsrr == old(gpiocBsrr)
      ensures inputs != [] ==>
        gpioaIdr == inputs[|inputs| - 1] && gpiocBsrr == LedCommand(inputs[|inputs| - 1])
      ensures inputs == [] ==> i == i0 && j == j0
      ensures inputs != [] ==> i == if i0 < DebounceCount then DebounceCount else i0
      ensures inputs != [] ==> j == if i0 < DebounceCount then DebounceDelay else j0
      ensures spins == if inputs != [] && i0 < DebounceCount
                       then (DebounceCount - i0) * DebounceDelay else 0
    {
      i, j, writes, spins := i0, j0, [], 0;
      var p := 0;
      while p < |inputs|
        invariant 0 <= p <= |inputs|
        invariant |writes| == p
        invariant forall q :: 0 <= q < p ==> writes[q] == LedCommand(inputs[q])
        invariant p == 0 ==> gpioaIdr == old(gpioaIdr) && gpiocBsrr == old(gpiocBsrr)
        invariant p > 0 ==> gpioaIdr == inputs[p - 1] && gpiocBsrr == LedCommand(inputs[p - 1])
        invariant p == 0 ==> i == i0 && j == j0
        invariant p > 0 ==> i == if i0 < DebounceCount then DebounceCount else i0
        invariant p > 0 ==> j == if i0 < DebounceCount then DebounceDelay else j0
        invariant spins == if p > 0 && i0 < DebounceCount
                           then (DebounceCount - i0) * DebounceDelay else 0
      {
        // the level of the button pin the hardware presents for this pass
        gpioaIdr := inputs[p];
        ghost var s;
        i, j, s := Poll(i, j);
        writes := writes + [gpiocBsrr];
        spins := spins + s;
        p := p + 1;
      }
    }

    /** `main` with a bounded number of polling passes: `i` starts from the
        arbitrary value i0 (it is never initialised) and `j` from 0. */
    method Start(inputs: seq<bv32>, i0: Int32)
      returns (i: Int32, j: Int32, ghost writes: seq<bv32>, ghost spins: nat)
      modifies this
      ensures ahb1enr == ClocksEnabled(old(ahb1enr))
      ensures gpioaModer == SetModer(old(gpioaModer), 0, ModerInput)
      ensures gpioaPupdr == SetPupdr(old(gpioaPupdr), 0, PupdrPullUp)
      ensures gpiocModer == SetModer(old(gpiocModer), 13, ModerOutput)
      ensures gpiocOtyper == SetOtype(old(gpiocOtyper), 13, OtypePushPull)
      ensures gpiocPupdr == SetPupdr(old(gpiocPupdr), 13, PupdrNone)
      ensures |writes| == |inputs|
      ensures forall p :: 0 <= p < |inputs| ==> writes[p] == LedCommand(inputs[p])
      ensures inputs == [] ==> gpioaIdr == old(gpioaIdr) && gpiocBsrr == old(gpiocBsrr)
      ensures inputs != [] ==>
        gpioaIdr == inputs[|inputs| - 1] && gpiocBsrr == LedCommand(inputs[|inputs| - 1])
      ensures inputs != [] ==> i == if i0 < DebounceCount then DebounceCount else i0
      ensures inputs == [] ==> i == i0 && j == 0
      ensures inputs != [] ==> j == if i0 < DebounceCount then DebounceDelay else 0
      ensures spins == if inputs != [] && i0 < DebounceCount
                       then (DebounceCount - i0) * DebounceDelay else 0
    {
      Init();
      i, j, writes, spins := Run(inputs, i0, 0);
    }
  }
}
