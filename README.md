# STM32F411 BlackPill button-to-LED firmware, modelled in Dafny

The firmware is a single bare-metal `main`. It does three things:

- turns on the clocks of GPIO ports A and C in RCC_AHB1ENR;
- configures PA0 as an input with the internal pull-up, where the button is;
- configures PC13 as a push-pull output without pull resistor, where the LED is.

It then polls forever. On each pass it reads bit 0 of GPIOA_IDR. When the bit is low (the button is active-low and pressed), it writes the LED pin's set word to GPIOC_BSRR; otherwise it writes the pin's reset word. It then runs a debounce busy-wait of nested counter loops.

The model has three modules:

- `Registers` (`registers.dfy`): the memory map, meaning base addresses, offsets, and the register addresses built as base + offset. A lemma shows that the registers are word-aligned and do not overlap.
- `BitFields` (`bitfields.dfy`): the register bit-field macros, as functions on `bv32`. Each mask is specified by the exact set of bits it covers, using the reference predicate `Bit(w, k)`. Each read-modify-write update is specified in three ways: reading the field back gives the written value, every bit outside the field is unchanged, and every other pin's field is unchanged.
- `Firmware` (`firmware.dfy`): `main` itself. The class `Mcu` has one `bv32` field for each register that `main` reaches through its pointers. The read-modify-write sequences are methods whose `modifies` frames name exactly the registers they write. The polling pass is `Poll`, and the debounce loop is the method `Debounce`, with its loop invariants. `Run` is a bounded number of polling passes, and `Start` is `main` with a bounded run.

Two quirks of the code are modelled as written:

- The debounce counter `i` is never initialised, so its starting value `i0` is a parameter.
- `i` is never reset between passes. After the first pass, `i` is at least 5 and the debounce loop does nothing. `Debounce`'s contract gives `i = max(i0, 5)`, gives `j = 1000` exactly when the loop ran, and counts the inner iterations (`spins`). `Run` proves that over any number of passes the total spin count is that of the first pass alone.

The evident intent is a fixed delay of five times a thousand iterations on every pass. The model follows the code.

## Model

| member | source | states |
|---|---|---|
| `Registers.RegistersDisjoint` | stm32f411-blackpill/src/main.c:23-57 | Every register address built as base + offset is word-aligned. No two of the nine 32-bit cells overlap, and every register `main` uses is among them, so no configuration write aliases another register. |
| `BitFields.ClockEnableBits` | stm32f411-blackpill/src/main.c:61-62 | The port A clock-enable constant is bit 0 alone and the port C constant is bit 2 alone. |
| `BitFields.ModerShift` | stm32f411-blackpill/src/main.c:71 | The mode field of pin n starts at bit 2n, a valid bit position for every pin n < 16. |
| `BitFields.ModerMask` | stm32f411-blackpill/src/main.c:71-72 | For every pin n < 16, the mode mask has bits 2n and 2n+1 set and no other bit. |
| `BitFields.ModerField` | stm32f411-blackpill/src/main.c:71-72 | The mode read back for pin n is below 4, and its two bits are bits 2n and 2n+1 of the register. |
| `BitFields.ModerValueWithinMask` | stm32f411-blackpill/src/main.c:66-72 | A mode value below 4, shifted by the mode shift of pin n, has no bit outside pin n's mode mask. |
| `BitFields.SetModer` | stm32f411-blackpill/src/main.c:158-161 | Clearing the mode mask and OR-ing in the shifted mode makes pin n read back that mode. It leaves every bit other than 2n and 2n+1 unchanged, and the mode of every other pin. |
| `BitFields.OtShift` | stm32f411-blackpill/src/main.c:79 | The output-type field of pin n starts at bit n. |
| `BitFields.OtMask` | stm32f411-blackpill/src/main.c:79-80 | The output-type mask of pin n is bit n alone. |
| `BitFields.OtField` | stm32f411-blackpill/src/main.c:79-80 | The output type read back for pin n is 0 or 1, and it is 1 exactly when bit n is set. |
| `BitFields.SetOtype` | stm32f411-blackpill/src/main.c:175-178 | The output-type read-modify-write makes pin n read back the written type and leaves every bit other than bit n unchanged. |
| `BitFields.PupdrShift` | stm32f411-blackpill/src/main.c:88 | The pull field of pin n starts at bit 2n, a valid bit position for every pin n < 16. |
| `BitFields.PupdrMask` | stm32f411-blackpill/src/main.c:88-89 | For every pin n < 16, the pull mask has bits 2n and 2n+1 set and no other bit. |
| `BitFields.PupdrField` | stm32f411-blackpill/src/main.c:88-89 | The pull setting read back for pin n is below 4, and its two bits are bits 2n and 2n+1 of the register. |
| `BitFields.PupdrValueWithinMask` | stm32f411-blackpill/src/main.c:84-89 | A pull value below 4, shifted by the pull shift of pin n, has no bit outside pin n's pull mask. |
| `BitFields.SetPupdr` | stm32f411-blackpill/src/main.c:163-166 | The pull read-modify-write makes pin n read back the written pull setting. It leaves every bit other than 2n and 2n+1 unchanged, and the pull setting of every other pin. |
| `BitFields.IdrShift` | stm32f411-blackpill/src/main.c:93 | The input bit of pin n is bit n. |
| `BitFields.IdrMask` | stm32f411-blackpill/src/main.c:93-94 | The input mask of pin n is bit n alone, so masking an IDR value with it gives zero exactly when pin n reads low. |
| `BitFields.BsrrSet` | stm32f411-blackpill/src/main.c:98 | The set word of pin n is bit n alone, which is 1 << n. |
| `BitFields.BsrrReset` | stm32f411-blackpill/src/main.c:99 | The reset word of pin n is bit n+16 alone, which is 1 << (n+16). |
| `BitFields.BsrrSetResetDisjoint` | stm32f411-blackpill/src/main.c:98-99 | No set word shares a bit with any reset word, for any two pins, so the two words always differ. |
| `BitFields.BsrrPin13` | stm32f411-blackpill/src/main.c:191-195 | For the LED pin 13, the set word is 0x2000 (bit 13) and the reset word is 0x20000000 (bit 29). |
| `Firmware.ClocksEnabled` | stm32f411-blackpill/src/main.c:146-154 | After the two clock-enable read-modify-writes, AHB1ENR has bits 0 and 2 set and every other bit as it was. |
| `Firmware.ClocksEnabledIdempotent` | stm32f411-blackpill/src/main.c:146-154 | Repeating the clock enables changes nothing. |
| `Firmware.ClocksEnabledFromZero` | stm32f411-blackpill/src/main.c:146-154 | Starting from 0, the clock enables leave exactly bits 0 and 2 set (value 5). |
| `Firmware.LedCommand` | stm32f411-blackpill/src/main.c:188-196 | The poll step writes the LED's set word exactly when IDR bit 0 is clear (button pressed, active-low), and the reset word exactly when it is set. |
| `Firmware.LedCommandOnlyReadsButton` | stm32f411-blackpill/src/main.c:188 | Two IDR values that agree on bit 0 lead to the same BSRR word. |
| `Firmware.Debounce` | stm32f411-blackpill/src/main.c:199-202 | From counter i0, the loop ends with i = max(i0, 5). j is 1000 when the outer loop ran and unchanged otherwise. The inner loop runs 1000 * (5 - i0) times when i0 < 5 and never otherwise. No step overflows a 32-bit `int`. |
| `Firmware.Mcu.constructor` | stm32f411-blackpill/src/main.c:133-142 | The eight registers reached through `main`'s pointers start with arbitrary reset values. |
| `Firmware.Mcu.EnableClocks` | stm32f411-blackpill/src/main.c:146-154 | Only AHB1ENR changes, and it becomes `ClocksEnabled` of its old value. |
| `Firmware.Mcu.ConfigureButton` | stm32f411-blackpill/src/main.c:158-166 | Only GPIOA_MODER and GPIOA_PUPDR change. Pin 0's mode becomes input and its pull becomes pull-up, through `SetModer` and `SetPupdr`. |
| `Firmware.Mcu.ConfigureLed` | stm32f411-blackpill/src/main.c:170-183 | Only GPIOC_MODER, GPIOC_OTYPER and GPIOC_PUPDR change. Pin 13 becomes an output, push-pull, with no pull. |
| `Firmware.Mcu.Init` | stm32f411-blackpill/src/main.c:146-183 | Both clock bits are set. PA0 is an input with pull-up, and PC13 is a push-pull output with no pull. Every other AHB1ENR bit, every other pin's mode and pull bits in both ports, and every other OTYPER bit of port C are as before. IDR and BSRR are untouched. |
| `Firmware.Mcu.Poll` | stm32f411-blackpill/src/main.c:188-202 | BSRR receives `LedCommand` of the current IDR, nothing else changes, and the counters end as `Debounce` states. |
| `Firmware.Mcu.Run` | stm32f411-blackpill/src/main.c:185-203 | Over a bounded sequence of IDR samples, pass p writes `LedCommand` of sample p. After at least one pass, i = max(i0, 5), and the total busy-wait is that of the first pass only. |
| `Firmware.Mcu.Start` | stm32f411-blackpill/src/main.c:126-203 | `main` with a bounded run: the initialisation state of `Init`, then `Run` from the uninitialised i0 and j = 0. |

## Left out

- Memory-mapped pointer casts, `volatile` semantics and the ordering of hardware accesses are not modelled. Each register is a plain `bv32` field, and `Registers.RegistersDisjoint` justifies treating the fields as separate cells.
- Hardware side effects are not modelled: a BSRR write does not update ODR, and the pin levels are not simulated. The IDR value for each pass is an input (`Run`'s `inputs`). GPIOC_ODR's address is defined but unused by `main`, as in the code.
- The `while(1)` loop never ends, which cannot be modelled directly. `Run` and `Start` model any finite number of passes. The unreachable `return EXIT_FAILURE` and the unused `argc`/`argv` are not modelled.
- Reading the uninitialised `i` is undefined behaviour in C. The model takes its value as the parameter `i0`, ranging over every 32-bit `int`.
- The busy-wait's wall-clock duration is not modelled. Only the counter values and the ghost count `spins` of inner iterations are modelled.
- For pin 15, the C expressions `3 << 30` (mode and pull masks) and `1 << 31` (BSRR reset word) overflow a signed `int`. The model gives them their 32-bit unsigned value. `main` uses only pins 0 and 13.
- The comments on the GPIO base-address lines give addresses that differ from the values defined. They are documentation only, and the model uses the defined values.
- The unused mode, output-type and pull constants (alternate, analog, open-drain, pull-down) are declared but play no part in `main`.
