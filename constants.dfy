/** The constants of the architecture (src/constants.mjs), the operand flag bits
    (src/VM/operations/Operand.mjs) and the protocol constants
    (src/Debugger/gdb/constants.mjs). */
module Constants {

  /** A byte of a program image or of a binary reply. */
  type Byte = x: int | 0 <= x < 0x100

  /** An element of a Uint16Array: what memory holds and what the image decodes to. */
  type U16 = x: int | 0 <= x < 0x1_0000

  // src/constants.mjs
  const AddressSize: nat := 2
  const LiteralMax: nat := 32767
  const LiteralModulo: nat := 32768
  const RegisterMin: nat := 32768
  const RegisterMax: nat := 32775

  /** The architecture has eight registers. */
  const RegisterCount: nat := 8

  // src/VM/operations/Operand.mjs
  const TypeAddress: bv8 := 0x01
  const TypeChar: bv8 := 0x02
  const TypeNumber: bv8 := 0x04
  const TypeRegister: bv8 := 0x08
  const Dynamic: bv8 := 0x10
  const RegisterFlags: bv8 := 0x28

  // src/Debugger/gdb/constants.mjs
  const Enoent: nat := 2
  const RegisterIp: nat := 8
  const RegisterSp: nat := 9
  const SignalTrap: nat := 5
  const SignalTerm: nat := 15
  const ThreadId: nat := 1
}
