/** The moduli of the machine words whose wrap-around the models write out. */
module MachineWords {
  const WORD32: nat := 0x1_0000_0000
  const WORD64: nat := 0x1_0000_0000_0000_0000

  lemma AddModulo(x: nat, y: nat)
    ensures (x % WORD64 + y) % WORD64 == (x + y) % WORD64
  {
    assert x == WORD64 * (x / WORD64) + x % WORD64;
  }

  /** A loop over nops iterations may make another one; nops == 0 stands for the largest 64-bit number. */
  predicate BelowLimit(nops: nat, counter: nat) {
    if nops == 0 then counter < 0xFFFF_FFFF_FFFF_FFFF else counter < nops
  }
}
