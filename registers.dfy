/*
 * The memory map used by the firmware: the base addresses of the RCC and of
 * GPIO ports A and C, the register offsets within a block, and the register
 * addresses built as base + offset (stm32f411-blackpill/src/main.c:23-57).
 */
module Registers {

  /** A 32-bit physical address. */
  type Address = a: int | 0 <= a < 0x1_0000_0000

  // Peripheral block base addresses
  const RccBase: Address := 0x4002_3800
  const GpioaBase: Address := 0x4002_0000
  const GpiocBase: Address := 0x4002_0800

  // Register offsets within a block
  const RccAhb1enrOffset: Address := 0x0030
  const GpioModerOffset: Address := 0x0000
  const GpioOtyperOffset: Address := 0x0004
  const GpioPupdrOffset: Address := 0x000c
  const GpioIdrOffset: Address := 0x0010
  const GpioOdrOffset: Address := 0x0014
  const GpioBsrrOffset: Address := 0x0018

  // Register addresses
  const RccAhb1enr: Address := RccBase + RccAhb1enrOffset

  const GpiocModer: Address := GpiocBase + GpioModerOffset
  const GpiocOtyper: Address := GpiocBase + GpioOtyperOffset
  const GpiocPupdr: Address := GpiocBase + GpioPupdrOffset
  const GpiocOdr: Address := GpiocBase + GpioOdrOffset
  const GpiocBsrr: Address := GpiocBase + GpioBsrrOffset

  const GpioaModer: Address := GpioaBase + GpioModerOffset
  const GpioaPupdr: Address := GpioaBase + GpioPupdrOffset
  const GpioaIdr: Address := GpioaBase + GpioIdrOffset

  /** Every register address the firmware defines. */
  const Defined: seq<Address> :=
    [RccAhb1enr, GpiocModer, GpiocOtyper, GpiocPupdr, GpiocOdr, GpiocBsrr,
     GpioaModer, GpioaPupdr, GpioaIdr]

  /** The registers the firmware actually reads or writes. */
  const Used: set<Address> :=
    {RccAhb1enr, GpioaModer, GpioaPupdr, GpioaIdr,
     GpiocModer, GpiocOtyper, GpiocPupdr, GpiocBsrr}

  /** Each defined register is a word-aligned 32-bit cell, and no two cells
      overlap, so a write through one register pointer never aliases another. */
  lemma RegistersDisjoint()
    ensures forall p :: 0 <= p < |Defined| ==> Defined[p] % 4 == 0
    ensures forall p, q :: 0 <= p < q < |Defined| ==>
              Defined[p] + 4 <= Defined[q] || Defined[q] + 4 <= Defined[p]
    ensures forall a :: a in Used ==> a in Defined
  {
  }
}
