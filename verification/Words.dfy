/** Fixed-width integers of the C sources, and the operators whose wrap-around the samplers rely on. */
module Words {
  const TWO31: nat := 0x8000_0000
  const TWO32: nat := 0x1_0000_0000
  const TWO64: nat := 0x1_0000_0000_0000_0000

  type byte = x: nat | x < 256
  type uint32 = x: nat | x < TWO32
  type uint64 = x: nat | x < TWO64

  function Min(a: nat, b: nat): nat { if a < b then a else b }

  function Max(a: nat, b: nat): nat { if a < b then b else a }

  /** Unsigned 64-bit subtraction. */
  function Sub64(a: int, b: int): uint64 { (a - b) % TWO64 }

  /** Unsigned 32-bit subtraction and multiplication. */
  function Sub32(a: int, b: int): uint32 { (a - b) % TWO32 }

  function Mul32(a: nat, b: nat): uint32 { (a * b) % TWO32 }

  /** Conversion of a 32-bit unsigned value to `int`. */
  function AsInt(x: uint32): int { if x < TWO31 then x else x - TWO32 }

  /** Conversion of an `int` back to 32-bit unsigned. */
  function AsUnsigned(x: int): uint32 { x % TWO32 }
}
