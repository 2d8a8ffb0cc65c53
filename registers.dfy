/** The two read-modify-write transforms the menu applies to microcontroller registers:
    the LED register (0x28, one byte) is complemented as a whole, and the interrupt mask
    (0x18, four bytes) has bit 0, the power-button interrupt, flipped. */
module Registers {

  /** Microcontroller register that controls the notification LED. */
  const LedRegister: int := 0x28
  /** Microcontroller interrupt-mask register; bit 0 masks the power button. */
  const IrqMaskRegister: int := 0x18
  const PowerButtonBit: bv32 := 0x0000_0001

  /** The byte the LED commit writes back: the complement of the byte just read. */
  function InvertLeds(r: bv8): (w: bv8)
    ensures w ^ r == 0xFF
  {
    !r
  }

  /** The mask the power-button commit writes back: the mask just read with bit 0 flipped. */
  function TogglePowerButton(m: bv32): (w: bv32)
    ensures w & PowerButtonBit != m & PowerButtonBit
    ensures w & !PowerButtonBit == m & !PowerButtonBit
  {
    m ^ PowerButtonBit
  }

  /** What the power-button menu displays: the button is disabled while bit 0 is set. */
  predicate PowerButtonDisabled(m: bv32)
  {
    m & PowerButtonBit == PowerButtonBit
  }

  /** Two LED commits restore the register. */
  lemma InvertLedsInvolutive(r: bv8)
    ensures InvertLeds(InvertLeds(r)) == r
  {
  }

  /** Two power-button commits restore the mask. */
  lemma TogglePowerButtonInvolutive(m: bv32)
    ensures TogglePowerButton(TogglePowerButton(m)) == m
  {
  }

  /** Each power-button commit flips what the menu displays. */
  lemma ToggleFlipsDisplay(m: bv32)
    ensures PowerButtonDisabled(TogglePowerButton(m)) == !PowerButtonDisabled(m)
  {
  }

  /** The LED register after `n` commits starting from `r`. */
  function LedsAfter(r: bv8, n: nat): bv8
  {
    if n == 0 then r else InvertLeds(LedsAfter(r, n - 1))
  }

  /** The interrupt mask after `n` commits starting from `m`. */
  function MaskAfter(m: bv32, n: nat): bv32
  {
    if n == 0 then m else TogglePowerButton(MaskAfter(m, n - 1))
  }

  /** After `n` LED commits the register holds its first value when `n` is even and the
      complement of it when `n` is odd. */
  lemma {:induction false} LedsAfterParity(r: bv8, n: nat)
    ensures LedsAfter(r, n) == if n % 2 == 0 then r else !r
  {
    if n > 0 {
      LedsAfterParity(r, n - 1);
    }
  }

  /** After `n` power-button commits bit 0 is the first bit 0 exclusive-or the parity of
      `n`, and bits 1 to 31 are those of the first mask. */
  lemma {:induction false} MaskAfterParity(m: bv32, n: nat)
    ensures MaskAfter(m, n) & PowerButtonBit ==
      (m & PowerButtonBit) ^ (if n % 2 == 0 then 0 else PowerButtonBit)
    ensures MaskAfter(m, n) & !PowerButtonBit == m & !PowerButtonBit
  {
    if n > 0 {
      MaskAfterParity(m, n - 1);
    }
  }
}
