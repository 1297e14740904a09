/*
 * The bit-field encoding of the RCC and GPIO registers
 * (stm32f411-blackpill/src/main.c:61-99), following the STM32F411 register
 * layout: one clock-enable bit per GPIO port in RCC_AHB1ENR, a 2-bit field per
 * pin in MODER and PUPDR, a 1-bit field per pin in OTYPER and IDR, and a set
 * bit (low half) and a reset bit (high half) per pin in BSRR.
 *
 * Pin numbers and bit positions are 32-bit words, as the C macros compute them
 * with the same shifts as the register values.
 */
module BitFields {

  /** A pin number within a 16-pin GPIO port. */
  type Pin = n: bv32 | n < 16

  /** A bit position within a 32-bit register. */
  type BitIndex = k: bv32 | k < 32

  /** Bit k of w is set: the reference against which every mask is stated. */
  predicate Bit(w: bv32, k: BitIndex) {
    (w >> k) & 1 == 1
  }

  // RCC_AHB1ENR: GPIO port clock-enable bits

  const GpioaEn: bv32 := 1 << 0
  const GpiocEn: bv32 := 1 << 2

  /** Each clock-enable constant is exactly one bit: bit 0 for port A, bit 2 for port C. */
  lemma ClockEnableBits()
    ensures forall k: BitIndex :: Bit(GpioaEn, k) <==> k == 0
    ensures forall k: BitIndex :: Bit(GpiocEn, k) <==> k == 2
  {
  }

  // GPIO port mode register: two bits per pin

  const ModerInput: bv32 := 0
  const ModerOutput: bv32 := 1
  const ModerAlt: bv32 := 2
  const ModerAnalog: bv32 := 3

  /** The first bit of pin n's mode field: two bits per pin. */
  function ModerShift(n: Pin): (s: BitIndex)
    ensures s == 2 * n
  {
    n << 1
  }

  /** The mode mask of pin n covers bits 2n and 2n+1 and nothing else. */
  function ModerMask(n: Pin): (m: bv32)
    ensures forall k: BitIndex :: Bit(m, k) <==> k == 2 * n || k == 2 * n + 1
  {
    3 << ModerShift(n)
  }

  /** The 2-bit mode of pin n held in a MODER value. */
  function ModerField(w: bv32, n: Pin): (f: bv32)
    ensures f < 4
    ensures forall k: BitIndex :: k < 2 ==> (Bit(f, k) <==> Bit(w, 2 * n + k))
  {
    (w >> ModerShift(n)) & 3
  }

  /** A mode value shifted into place lies within the pin's mode mask. */
  lemma ModerValueWithinMask(n: Pin, mode: bv32)
    requires mode < 4
    ensures (mode << ModerShift(n)) & !ModerMask(n) == 0
  {
  }

  /** The read-modify-write `(reg & ~MODER_MASK(n)) | (mode << MODER_SHIFT(n))`:
      pin n gets the new mode, every bit outside its mask is unchanged, and so
      is the mode of every other pin. */
  function SetModer(reg: bv32, n: Pin, mode: bv32): (r: bv32)
    requires mode < 4
    ensures ModerField(r, n) == mode
    ensures forall k: BitIndex :: k != 2 * n && k != 2 * n + 1 ==> Bit(r, k) == Bit(reg, k)
    ensures forall m: Pin :: m != n ==> ModerField(r, m) == ModerField(reg, m)
  {
    ModerUpdate(reg, n, mode);
    (reg & !ModerMask(n)) | (mode << ModerShift(n))
  }

  // GPIO port output type register: one bit per pin

  const OtypePushPull: bv32 := 0
  const OtypeOpenDrain: bv32 := 1

  /** The output-type bit of pin n: one bit per pin. */
  function OtShift(n: Pin): (s: BitIndex)
    ensures s == n
  {
    n
  }

  /** The output-type mask of pin n is bit n alone. */
  function OtMask(n: Pin): (m: bv32)
    ensures forall k: BitIndex :: Bit(m, k) <==> k == n
  {
    1 << OtShift(n)
  }

  /** The output type of pin n held in an OTYPER value. */
  function OtField(w: bv32, n: Pin): (f: bv32)
    ensures f < 2
    ensures f == 1 <==> Bit(w, n)
  {
    (w >> OtShift(n)) & 1
  }

  /** The read-modify-write `(reg & ~OT_MASK(n)) | (ot << OT_SHIFT(n))`. */
  function SetOtype(reg: bv32, n: Pin, ot: bv32): (r: bv32)
    requires ot < 2
    ensures OtField(r, n) == ot
    ensures forall k: BitIndex :: k != n ==> Bit(r, k) == Bit(reg, k)
  {
    OtUpdate(reg, n, ot);
    (reg & !OtMask(n)) | (ot << OtShift(n))
  }

  // GPIO port pull-up/pull-down register: two bits per pin

  const PupdrNone: bv32 := 0
  const PupdrPullUp: bv32 := 1
  const PupdrPullDown: bv32 := 2

  /** The first bit of pin n's pull field: two bits per pin. */
  function PupdrShift(n: Pin): (s: BitIndex)
    ensures s == 2 * n
  {
    n << 1
  }

  /** The pull mask of pin n covers bits 2n and 2n+1 and nothing else. */
  function PupdrMask(n: Pin): (m: bv32)
    ensures forall k: BitIndex :: Bit(m, k) <==> k == 2 * n || k == 2 * n + 1
  {
    3 << PupdrShift(n)
  }

  /** The 2-bit pull setting of pin n held in a PUPDR value. */
  function PupdrField(w: bv32, n: Pin): (f: bv32)
    ensures f < 4
    ensures forall k: BitIndex :: k < 2 ==> (Bit(f, k) <==> Bit(w, 2 * n + k))
  {
    (w >> PupdrShift(n)) & 3
  }

  /** A pull value shifted into place lies within the pin's pull mask. */
  lemma PupdrValueWithinMask(n: Pin, pull: bv32)
    requires pull < 4
    ensures (pull << PupdrShift(n)) & !PupdrMask(n) == 0
  {
  }

  /** The read-modify-write `(reg & ~PUPDR_MASK(n)) | (pull << PUPDR_SHIFT(n))`. */
  function SetPupdr(reg: bv32, n: Pin, pull: bv32): (r: bv32)
    requires pull < 4
    ensures PupdrField(r, n) == pull
    ensures forall k: BitIndex :: k != 2 * n && k != 2 * n + 1 ==> Bit(r, k) == Bit(reg, k)
    ensures forall m: Pin :: m != n ==> PupdrField(r, m) == PupdrField(reg, m)
  {
    PupdrUpdate(reg, n, pull);
    (reg & !PupdrMask(n)) | (pull << PupdrShift(n))
  }

  // GPIO port input data register: one bit per pin

  /** The input bit of pin n: one bit per pin. */
  function IdrShift(n: Pin): (s: BitIndex)
    ensures s == n
  {
    n
  }

  /** The input mask of pin n is bit n alone, so masking a value with it
      gives zero exactly when the pin reads low. */
  function IdrMask(n: Pin): (m: bv32)
    ensures forall k: BitIndex :: Bit(m, k) <==> k == n
    ensures forall w: bv32 :: w & m == 0 <==> !Bit(w, n)
  {
    1 << IdrShift(n)
  }

  // GPIO port bit set/reset register

  /** The set word of pin n is bit n alone. */
  function BsrrSet(n: Pin): (w: bv32)
    ensures forall k: BitIndex :: Bit(w, k) <==> k == n
  {
    1 << n
  }

  /** The reset word of pin n is bit n+16 alone. */
  function BsrrReset(n: Pin): (w: bv32)
    ensures forall k: BitIndex :: Bit(w, k) <==> k == n + 16
  {
    1 << (n + 16)
  }

  /** Set words live in the low half and reset words in the high half, so no
      set word shares a bit with any reset word. */
  lemma BsrrSetResetDisjoint(n: Pin, m: Pin)
    ensures BsrrSet(n) & BsrrReset(m) == 0
    ensures BsrrSet(n) != BsrrReset(m)
  {
  }

  /** For the LED pin 13: the set word is bit 13 and the reset word is bit 29. */
  lemma BsrrPin13()
    ensures BsrrSet(13) == 0x0000_2000
    ensures BsrrReset(13) == 0x2000_0000
  {
  }

  // Helpers for the read-modify-write updates: each frame property is proved
  // one bit or one pin at a time and then gathered.

  lemma ModerUpdateKeepsBit(reg: bv32, n: Pin, v: bv32, k: BitIndex)
    requires v < 4 && k != 2 * n && k != 2 * n + 1
    ensures Bit((reg & !ModerMask(n)) | (v << ModerShift(n)), k) == Bit(reg, k)
  {
  }

  lemma ModerUpdateKeepsPin(reg: bv32, n: Pin, m: Pin, v: bv32)
    requires v < 4 && m != n
    ensures ModerField((reg & !ModerMask(n)) | (v << ModerShift(n)), m) == ModerField(reg, m)
  {
  }

  lemma ModerUpdate(reg: bv32, n: Pin, v: bv32)
    requires v < 4
    ensures var r := (reg & !ModerMask(n)) | (v << ModerShift(n));
      (forall k: BitIndex :: k != 2 * n && k != 2 * n + 1 ==> Bit(r, k) == Bit(reg, k)) &&
      (forall m: Pin :: m != n ==> ModerField(r, m) == ModerField(reg, m))
  {
    var r := (reg & !ModerMask(n)) | (v << ModerShift(n));
    forall k: BitIndex | k != 2 * n && k != 2 * n + 1 ensures Bit(r, k) == Bit(reg, k) {
      ModerUpdateKeepsBit(reg, n, v, k);
    }
    forall m: Pin | m != n ensures ModerField(r, m) == ModerField(reg, m) {
      ModerUpdateKeepsPin(reg, n, m, v);
    }
  }

  lemma PupdrUpdateKeepsBit(reg: bv32, n: Pin, v: bv32, k: BitIndex)
    requires v < 4 && k != 2 * n && k != 2 * n + 1
    ensures Bit((reg & !PupdrMask(n)) | (v << PupdrShift(n)), k) == Bit(reg, k)
  {
  }

  lemma PupdrUpdateKeepsPin(reg: bv32, n: Pin, m: Pin, v: bv32)
    requires v < 4 && m != n
    ensures PupdrField((reg & !PupdrMask(n)) | (v << PupdrShift(n)), m) == PupdrField(reg, m)
  {
  }

  lemma PupdrUpdate(reg: bv32, n: Pin, v: bv32)
    requires v < 4
    ensures var r := (reg & !PupdrMask(n)) | (v << PupdrShift(n));
      (forall k: BitIndex :: k != 2 * n && k != 2 * n + 1 ==> Bit(r, k) == Bit(reg, k)) &&
      (forall m: Pin :: m != n ==> PupdrField(r, m) == PupdrField(reg, m))
  {
    var r := (reg & !PupdrMask(n)) | (v << PupdrShift(n));
    forall k: BitIndex | k != 2 * n && k != 2 * n + 1 ensures Bit(r, k) == Bit(reg, k) {
      PupdrUpdateKeepsBit(reg, n, v, k);
    }
    forall m: Pin | m != n ensures PupdrField(r, m) == PupdrField(reg, m) {
      PupdrUpdateKeepsPin(reg, n, m, v);
    }
  }

  lemma OtUpdateKeepsBit(reg: bv32, n: Pin, v: bv32, k: BitIndex)
    requires v < 2 && k != n
    ensures Bit((reg & !OtMask(n)) | (v << OtShift(n)), k) == Bit(reg, k)
  {
  }

  lemma OtUpdate(reg: bv32, n: Pin, v: bv32)
    requires v < 2
    ensures var r := (reg & !OtMask(n)) | (v << OtShift(n));
      forall k: BitIndex :: k != n ==> Bit(r, k) == Bit(reg, k)
  {
    var r := (reg & !OtMask(n)) | (v << OtShift(n));
    forall k: BitIndex | k != n ensures Bit(r, k) == Bit(reg, k) {
      OtUpdateKeepsBit(reg, n, v, k);
    }
  }

  // Unfolding lemmas: each states that an update function equals its defining
  // expression, so that the Configure* methods of the firmware can relate their
  // step-by-step read-modify-writes to it with a small proof.

  lemma ModerRmw(reg: bv32, n: Pin, mode: bv32)
    requires mode < 4
    ensures SetModer(reg, n, mode) == (reg & !ModerMask(n)) | (mode << ModerShift(n))
  {
  }

  lemma OtRmw(reg: bv32, n: Pin, ot: bv32)
    requires ot < 2
    ensures SetOtype(reg, n, ot) == (reg & !OtMask(n)) | (ot << OtShift(n))
  {
  }

  lemma PupdrRmw(reg: bv32, n: Pin, pull: bv32)
    requires pull < 4
    ensures SetPupdr(reg, n, pull) == (reg & !PupdrMask(n)) | (pull << PupdrShift(n))
  {
  }
}
