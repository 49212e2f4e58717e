/** The package temperature: packed by `temp_restart` from two registers, printed by `temp_scnprintf`. */
module Temperature {
  import opened Words
  import opened Bits

  /** Fields of the registers: bits 16-23 and 8-15 of the target, bits 16-22 of the status. */
  function TjMax(target: uint64): nat { target / 0x1_0000 % 256 }

  function Offset(target: uint64): nat { target / 256 % 256 }

  function Readout(status: uint64): nat { status / 0x1_0000 % 128 }

  /** The three ints put together, as 32-bit words; a negative one has its sign bits on. */
  function Packed(tj: nat, offset: nat, readout: nat): uint32 {
    var high, middle, low := Word(tj * 0x100_0000), Word((tj - offset) * 0x1_0000), Word(tj - readout);
    OrWord(high, middle);
    OrWord(Or(high, middle), low);
    Or(Or(high, middle), low)
  }

  /** An int as the 32-bit word it is. */
  function Word(x: int): uint32 { x % TWO32 }

  lemma OrWord(a: nat, b: nat)
    ensures a < TWO32 && b < TWO32 ==> Or(a, b) < TWO32
  {
    if a < TWO32 && b < TWO32 {
      assert Pow2(8) == 0x100;
      assert Pow2(12) == 0x1000;
      assert Pow2(16) == 0x1_0000;
      assert Pow2(20) == 0x10_0000;
      assert Pow2(24) == 0x100_0000;
      assert Pow2(28) == 0x1000_0000;
      assert Pow2(32) == TWO32;
      OrFits(a, b, 32);
    }
  }

  /** The conversion of an int to the returned `uint64_t`. */
  function SignExtended(x: uint32): uint64 { if x < TWO31 then x else x + (TWO64 - TWO32) }

  function Restart(status: uint64, target: uint64): uint64 {
    SignExtended(Packed(TjMax(target), Offset(target), Readout(status)))
  }

  function Printed(data: uint64): nat { data % 256 }

  lemma LowByteOfOr(a: nat, b: nat)
    requires a % 256 == 0
    ensures Or(a, b) % 256 == b % 256
  {
    assert Pow2(8) == 256;
    OrLowBits(a, b, 8);
  }

  lemma SameByte(x: int, y: int, k: int)
    requires x == y + 256 * k
    ensures x % 256 == y % 256
  {
  }

  lemma WordBytes(x: int)
    ensures Word(x) % 256 == x % 256
  {
    SameByte(x, Word(x), 0x100_0000 * (x / TWO32));
  }

  lemma NoLowByte(x: int)
    ensures Word(x * 0x1_0000) % 256 == 0 && Word(x * 0x100_0000) % 256 == 0
  {
    WordBytes(x * 0x1_0000);
    SameByte(x * 0x1_0000, 0, 256 * x);
    WordBytes(x * 0x100_0000);
    SameByte(x * 0x100_0000, 0, 0x1_0000 * x);
  }

  lemma ExtendedByte(x: uint32)
    ensures SignExtended(x) % 256 == x % 256
  {
    if x >= TWO31 {
      SameByte(SignExtended(x), x, 0xff_ffff_ff00_0000);
    }
  }

  lemma LowByte(tj: nat, offset: nat, readout: nat)
    ensures SignExtended(Packed(tj, offset, readout)) % 256 == (tj - readout) % 256
  {
    var high, middle, low := Word(tj * 0x100_0000), Word((tj - offset) * 0x1_0000), Word(tj - readout);
    NoLowByte(tj);
    NoLowByte(tj - offset);
    LowByteOfOr(high, middle);
    LowByteOfOr(Or(high, middle), low);
    WordBytes(tj - readout);
    ExtendedByte(Packed(tj, offset, readout));
  }

  lemma ByteOfDifference(tj: int, readout: int)
    requires 0 <= tj < 256 && 0 <= readout < 256
    ensures (tj - readout) % 256 == if readout <= tj then tj - readout else 256 + tj - readout
  {
  }

  /** What is printed is the distance of the readout to the maximum, if and only if the readout does not exceed it;
      otherwise it is 256 more. The maximum is bits 16-23 of one register, the readout bits 16-22 of the other. */
  lemma PrintedTemperature(status: uint64, target: uint64)
    ensures var tj, readout := target / 0x1_0000 % 256, status / 0x1_0000 % 128;
            var shown := Printed(Restart(status, target));
            (shown == tj - readout as int <==> readout <= tj) && (readout > tj ==> shown == 256 + tj - readout)
  {
    var tj, readout := TjMax(target), Readout(status);
    LowByte(tj, Offset(target), readout);
    ByteOfDifference(tj, readout);
  }
}
