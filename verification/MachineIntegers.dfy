/** The limits of the machine integers the engine counts with. */
module MachineIntegers {
  const U32_LIMIT: nat := 0x1_0000_0000
  const U64_MAX: nat := 0xFFFF_FFFF_FFFF_FFFF
}
