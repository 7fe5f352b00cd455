// src/lib/bitmap.c: bits of a byte array, numbered from offset.
module Bitmap {
  import opened Wrappers

  // 1 << k
  function Mask(k: nat): bv8
    requires k < 8
  {
    if k == 0 then 1 else Mask(k - 1) << 1
  }

  // Bit k of a byte.
  function Bit(b: bv8, k: nat): bool {
    if k == 0 then b & 1 != 0 else Bit(b >> 1, k - 1)
  }

  lemma MaskValues()
    ensures Mask(0) == 1 && Mask(1) == 2 && Mask(2) == 4 && Mask(3) == 8
    ensures Mask(4) == 16 && Mask(5) == 32 && Mask(6) == 64 && Mask(7) == 128
  {
    assert Mask(2) == 4;
    assert Mask(4) == 16;
    assert Mask(6) == 64;
  }

  lemma {:induction false} BitShift(b: bv8, m: bv8, k: nat)
    requires k < 8 && m == Mask(k)
    ensures Bit(b, k) == (b & m != 0)
    decreases k
  {
    if k > 0 {
      BitShift(b >> 1, Mask(k - 1), k - 1);
      MaskTop(k - 1);
      ShiftAnd(b, Mask(k - 1));
    }
  }

  function Weight(on: bool, value: bv8): bv8 {
    if on then value else 0
  }

  // A byte is the number its bits write, the lowest first.
  lemma ByteIsItsBits(b: bv8)
    ensures b == Weight(Bit(b, 0), 1) + Weight(Bit(b, 1), 2) + Weight(Bit(b, 2), 4) + Weight(Bit(b, 3), 8)
               + Weight(Bit(b, 4), 16) + Weight(Bit(b, 5), 32) + Weight(Bit(b, 6), 64) + Weight(Bit(b, 7), 128)
  {
    hide Mask;
    MaskValues();
    BitShift(b, 1, 0);
    BitShift(b, 2, 1);
    BitShift(b, 4, 2);
    BitShift(b, 8, 3);
    BitShift(b, 16, 4);
    BitShift(b, 32, 5);
    BitShift(b, 64, 6);
    BitShift(b, 128, 7);
  }

  lemma MaskTop(k: nat)
    requires k < 7
    ensures Mask(k) & 0x80 == 0
  {
    MaskValues();
  }

  lemma ShiftAnd(b: bv8, m: bv8)
    requires m & 0x80 == 0
    ensures ((b >> 1) & m != 0) == (b & (m << 1) != 0)
  {}

  lemma {:induction false} MasksApart(j: nat, k: nat)
    requires j < k < 8
    ensures Mask(j) & Mask(k) == 0
  {
    if j == 0 {
      EvenMask(Mask(k - 1));
    } else {
      MasksApart(j - 1, k - 1);
      ShiftApart(Mask(j - 1), Mask(k - 1));
    }
  }

  lemma EvenMask(m: bv8)
    ensures 1 & (m << 1) == 0
  {}

  lemma ShiftApart(m: bv8, n: bv8)
    requires m & n == 0
    ensures (m << 1) & (n << 1) == 0
  {}

  lemma AndCommutes(m: bv8, n: bv8)
    ensures m & n == n & m
  {}

  lemma SetOther(b: bv8, m: bv8, n: bv8)
    requires m & n == 0
    ensures (b | m) & n == b & n
    ensures (b & !m) & n == b & n
  {}

  lemma SetSame(b: bv8, m: bv8)
    ensures (b | m) & m == m
    ensures (b & !m) & m == 0
  {}

  function WithBit(b: bv8, j: nat, value: bool): bv8
    requires j < 8
  {
    if value then b | Mask(j) else b & !Mask(j)
  }

  // Setting or clearing one bit of a byte leaves the other seven alone.
  lemma BitOfWithBit(b: bv8, j: nat, value: bool, k: nat)
    requires j < 8 && k < 8
    ensures Bit(WithBit(b, j, value), k) == if j == k then value else Bit(b, k)
  {
    var m, n := Mask(j), Mask(k);
    BitShift(b, n, k);
    BitShift(WithBit(b, j, value), n, k);
    if j == k {
      SetSame(b, m);
      MaskNonzero(j);
    } else {
      if j < k { MasksApart(j, k); } else { MasksApart(k, j); AndCommutes(m, n); }
      SetOther(b, m, n);
    }
  }

  lemma MaskNonzero(k: nat)
    requires k < 8
    ensures Mask(k) != 0
  {
    MaskValues();
  }

  function BitsOf(bytes: seq<bv8>): (s: seq<bool>)
    ensures |s| == 8 * |bytes|
  {
    seq(8 * |bytes|, i requires 0 <= i < 8 * |bytes| => Bit(bytes[i / 8], i % 8))
  }

  lemma BitsOfUpdate(bytes: seq<bv8>, idx: nat, value: bool)
    requires idx < 8 * |bytes|
    ensures BitsOf(bytes[idx / 8 := WithBit(bytes[idx / 8], idx % 8, value)]) == BitsOf(bytes)[idx := value]
  {
    var after := bytes[idx / 8 := WithBit(bytes[idx / 8], idx % 8, value)];
    forall i | 0 <= i < 8 * |bytes| ensures BitsOf(after)[i] == if i == idx then value else BitsOf(bytes)[i] {
      if i / 8 == idx / 8 {
        BitOfWithBit(bytes[idx / 8], idx % 8, value, i % 8);
      }
    }
  }

  // The first start of count clear bits in a row.
  predicate ClearRun(bits: seq<bool>, start: nat, count: nat) {
    start + count <= |bits| && forall i :: start <= i < start + count ==> !bits[i]
  }

  // count bits from start on set to value
  function Fill(bits: seq<bool>, start: nat, count: nat, value: bool): (r: seq<bool>)
    requires start + count <= |bits|
    ensures |r| == |bits|
    ensures forall i :: 0 <= i < |bits| ==> r[i] == if start <= i < start + count then value else bits[i]
  {
    bits[..start] + seq(count, i => value) + bits[start + count..]
  }

  class Bitmap {
    const bits: array<bv8>
    const offset: nat

    constructor (bits: array<bv8>, offset: nat)
      ensures this.bits == bits && this.offset == offset
    {
      this.bits := bits;
      this.offset := offset;
    }

    ghost function Bits(): (s: seq<bool>)
      reads bits
      ensures |s| == 8 * bits.Length
    {
      BitsOf(bits[..])
    }

    method Test(index: nat) returns (used: bool)
      requires offset <= index < offset + 8 * bits.Length
      ensures used == Bits()[index - offset]
    {
      var idx := index - offset;
      BitShift(bits[idx / 8], Mask(idx % 8), idx % 8);
      used := bits[idx / 8] & Mask(idx % 8) != 0;
    }

    method Set(index: nat, value: bool)
      requires offset <= index < offset + 8 * bits.Length
      modifies bits
      ensures Bits() == old(Bits())[index - offset := value]
    {
      hide Bit, Mask;
      var idx := index - offset;
      ghost var before := bits[..];
      if value {
        bits[idx / 8] := bits[idx / 8] | Mask(idx % 8);
      } else {
        bits[idx / 8] := bits[idx / 8] & !Mask(idx % 8);
      }
      BitsOfUpdate(before, idx, value);
      assert bits[..] == before[idx / 8 := WithBit(before[idx / 8], idx % 8, value)];
    }

    // The first half of bitmap_scan: the leftmost run of count clear bits.
    method FindRun(count: nat) returns (start: Option<nat>)
      requires count > 0
      ensures start.None? ==> forall s: nat :: !ClearRun(Bits(), s, count)
      ensures start.Some? ==> ClearRun(Bits(), start.value, count)
      ensures start.Some? ==> forall s: nat :: s < start.value ==> !ClearRun(Bits(), s, count)
    {
      ghost var all := Bits();
      var left := 8 * bits.Length;
      var next := 0;
      var counter := 0;
      while left > 0
        invariant 0 <= left && left + next == |all|
        invariant counter <= next && counter < count
        invariant forall i :: next - counter <= i < next ==> !all[i]
        invariant counter < next ==> all[next - counter - 1]
        invariant forall s: nat :: s + count <= next ==> !ClearRun(all, s, count)
      {
        left := left - 1;
        var used := Test(offset + next);
        counter := if !used then counter + 1 else 0;
        next := next + 1;
        if counter == count {
          return Some(next - count);
        }
        forall s: nat | s + count <= next ensures !ClearRun(all, s, count) {
          if s + count == next {
            assert s <= next - counter - 1 < next;
          }
        }
      }
      return None;
    }

    // The leftmost run of count clear bits, all set on return; None when there is none.
    method Scan(count: nat) returns (r: Option<nat>)
      requires count > 0
      modifies bits
      ensures r.None? ==> Bits() == old(Bits()) && forall s: nat :: !ClearRun(old(Bits()), s, count)
      ensures r.Some? ==> r.value >= offset && ClearRun(old(Bits()), r.value - offset, count)
      ensures r.Some? ==> forall s: nat :: s < r.value - offset ==> !ClearRun(old(Bits()), s, count)
      ensures r.Some? ==> Bits() == Fill(old(Bits()), r.value - offset, count, true)
    {
      var start := FindRun(count);
      if start.None? {
        return None;
      }
      ghost var before := Bits();
      var left := count;
      var next := start.value;
      assert Fill(before, start.value, 0, true) == before;
      while left > 0
        invariant 0 <= left && left + next == start.value + count && start.value <= next
        invariant Bits() == Fill(before, start.value, next - start.value, true)
      {
        left := left - 1;
        Set(offset + next, true);
        next := next + 1;
        assert Fill(before, start.value, next - start.value, true)
            == Fill(before, start.value, next - 1 - start.value, true)[next - 1 := true];
      }
      r := Some(start.value + offset);
    }
  }
}
