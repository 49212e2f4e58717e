/** Sensor bytes of an IPMI group: packed by `xstat_ipmi_restart`, taken apart by `xstat_ipmi_scnprintf`. */
module IpmiPacking {
  import opened Words
  import opened Bits
  import opened Printer

  /** `ret` once the loop, which runs from the last sensor to the first, has done sensor i. */
  function PackedFrom(bytes: seq<byte>, i: nat): (w: uint64)
    requires i <= |bytes|
    decreases |bytes| - i
  {
    if i == |bytes| then 0 else Shl8(PackedFrom(bytes, i + 1)) + bytes[i]
  }

  /** `ret << 8` on 64 bits; the low eight bits are free. */
  function Shl8(w: uint64): (r: uint64)
    ensures r % 256 == 0 && r <= TWO64 - 256
  {
    var r := (w * 256) % TWO64;
    assert r == 256 * (w % (TWO64 / 256)) by { ShlParts(w); }
    r
  }

  lemma ShlParts(w: nat)
    ensures (w * 256) % TWO64 == 256 * (w % (TWO64 / 256))
  {
    var m := TWO64 / 256;
    var q := w / m;
    assert w == m * q + w % m;
    assert w * 256 == TWO64 * q + 256 * (w % m);
  }

  /** The packing loop over the readings as it finds them. */
  method Pack(readings: array<byte>) returns (ret: uint64)
    ensures ret == PackedFrom(readings[..], 0)
  {
    ret := 0;
    var i := readings.Length - 1;
    while i >= 0
      invariant -1 <= i < readings.Length
      invariant ret == PackedFrom(readings[..], i + 1)
    {
      if i != readings.Length - 1 {
        ret := Shl8(ret);
      }
      OrByte(ret, readings[i]);
      ret := Or(ret, readings[i]);
      i := i - 1;
    }
  }

  function Pow256(n: nat): (p: nat)
    ensures p > 0
  {
    if n == 0 then 1 else 256 * Pow256(n - 1)
  }

  lemma Pow256Bound(n: nat)
    requires n <= 7
    ensures 0 < Pow256(n) <= TWO64 / 256
  {
    assert Pow256(3) == 0x100_0000;
    assert Pow256(5) == 0x1_0000 * Pow256(3);
    assert Pow256(7) == 0x1_0000 * Pow256(5);
  }

  /** With at most eight sensors nothing is shifted out. */
  lemma {:induction false} PackedFits(bytes: seq<byte>, i: nat)
    requires i <= |bytes| && |bytes| - i <= 8
    ensures PackedFrom(bytes, i) < Pow256(|bytes| - i)
    ensures i < |bytes| ==> PackedFrom(bytes, i) == 256 * PackedFrom(bytes, i + 1) + bytes[i]
    decreases |bytes| - i
  {
    if i < |bytes| {
      PackedFits(bytes, i + 1);
      Pow256Bound(|bytes| - i - 1);
      assert PackedFrom(bytes, i + 1) * 256 < TWO64;
    }
  }

  lemma {:induction false} ShiftedPacked(bytes: seq<byte>, k: nat)
    requires k <= |bytes| <= 8
    ensures Shifted(PackedFrom(bytes, 0), k) == PackedFrom(bytes, k)
  {
    if k > 0 {
      ShiftedPacked(bytes, k - 1);
      PackedFits(bytes, k - 1);
    }
  }

  lemma {:induction false} SensorFieldAt(sensors: seq<Sensor>, data: uint64, n: nat, k: nat)
    requires k < n <= |sensors|
    ensures SensorFields(sensors, data, n)[k] == SensorField(sensors[k], Shifted(data, k) % 256)
  {
    if k < n - 1 {
      SensorFieldAt(sensors, data, n - 1, k);
    }
  }

  lemma LowByte(bytes: seq<byte>, k: nat)
    requires k < |bytes| <= 8
    ensures Shifted(PackedFrom(bytes, 0), k) % 256 == bytes[k]
  {
    ShiftedPacked(bytes, k);
    PackedFits(bytes, k);
  }

  /** Packing, then printing: up to eight sensors, each shows (reading + base) * mul under its own name. */
  lemma PackThenPrint(sensors: seq<Sensor>, bytes: seq<byte>, k: nat)
    requires k < |sensors| == |bytes| <= 8
    ensures var x, f := sensors[k], SensorFields(sensors, PackedFrom(bytes, 0), |sensors|)[k];
            f.name == x.name && f.value == (bytes[k] + x.base) * x.mul
  {
    SensorFieldAt(sensors, PackedFrom(bytes, 0), |sensors|, k);
    LowByte(bytes, k);
  }

  lemma {:induction false} ShiftedBound(data: nat, n: nat)
    requires n <= 8 && data < Pow256(8)
    ensures Shifted(data, n) < Pow256(8 - n)
  {
    if n > 0 {
      ShiftedBound(data, n - 1);
      assert Pow256(8 - (n - 1)) == 256 * Pow256(8 - n);
    }
  }

  lemma {:induction false} NothingAboveEight(data: uint64, k: nat)
    requires k >= 8
    ensures Shifted(data, k) == 0
  {
    if k > 8 {
      NothingAboveEight(data, k - 1);
    } else {
      assert Pow256(3) == 0x100_0000;
      assert Pow256(5) == 0x1_0000 * Pow256(3);
      assert Pow256(7) == 0x1_0000 * Pow256(5);
      assert Pow256(8) == TWO64;
      ShiftedBound(data, 8);
    }
  }

  /** Eight is the most a word holds: a ninth sensor would always show the value of the byte 0. */
  lemma NinthShowsZero(sensors: seq<Sensor>, data: uint64, k: nat)
    requires 8 <= k < |sensors|
    ensures SensorFields(sensors, data, |sensors|)[k] == SensorField(sensors[k], 0)
  {
    SensorFieldAt(sensors, data, |sensors|, k);
    NothingAboveEight(data, k);
  }
}
