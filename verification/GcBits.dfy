// Mark bits, packed in words of 64 (gc.c).
module GcMasks {

  // 1, shifted left b times.
  function Mask(b: nat): bv64
    requires b < 64
  {
    if b == 0 then 1 else Mask(b - 1) << 1
  }

  lemma FirstMask()
    ensures Mask(0) == 1
  {
  }

  lemma NextMask(b: nat)
    requires b + 1 < 64
    ensures Mask(b + 1) == Mask(b) << 1
  {
  }

  lemma ShiftedApart(x: bv64, y: bv64)
    ensures x & y == 0 ==> (x << 1) & (y << 1) == 0
    ensures 1 & (y << 1) == 0
  {
  }

  // Different positions have disjoint masks.
  lemma {:induction false} MasksAscend(b: nat, c: nat)
    requires b < c < 64
    ensures Mask(b) & Mask(c) == 0
  {
    hide Mask;
    FirstMask();
    NextMask(c - 1);
    ShiftedApart(1, Mask(c - 1));
    if b > 0 {
      NextMask(b - 1);
      MasksAscend(b - 1, c - 1);
      ShiftedApart(Mask(b - 1), Mask(c - 1));
    }
  }

  lemma MasksApart(b: nat, c: nat)
    requires b < 64 && c < 64 && b != c
    ensures Mask(b) & Mask(c) == 0
  {
    hide Mask;
    if b < c {
      MasksAscend(b, c);
    } else {
      MasksAscend(c, b);
    }
  }

  // The bit is never shifted out.
  lemma MaskNonzero(b: nat)
    requires b < 64
    ensures Mask(b) != 0
  {
    LastMask();
    if Mask(b) == 0 {
      ZeroStays(b, 63);
    }
  }

  lemma {:induction false} ZeroStays(b: nat, c: nat)
    requires b <= c < 64 && Mask(b) == 0
    ensures Mask(c) == 0
    decreases c - b
  {
    if b < c {
      ZeroStays(b + 1, c);
    }
  }

  lemma FourUp(b: nat)
    requires b + 4 < 64
    ensures Mask(b + 4) == Mask(b) << 4
  {
    hide Mask;
    NextMask(b);
    NextMask(b + 1);
    NextMask(b + 2);
    NextMask(b + 3);
  }

  lemma SixteenUp(b: nat)
    requires b + 16 < 64
    ensures Mask(b + 16) == Mask(b) << 16
  {
    hide Mask;
    FourUp(b);
    FourUp(b + 4);
    FourUp(b + 8);
    FourUp(b + 12);
  }

  lemma LastMask()
    ensures Mask(63) != 0
  {
    hide Mask;
    FirstMask();
    NextMask(0);
    NextMask(1);
    NextMask(2);
    FourUp(3);
    FourUp(7);
    FourUp(11);
    SixteenUp(15);
    SixteenUp(31);
    SixteenUp(47);
  }

  predicate Has(u: bv64, m: bv64) {
    u & m != 0
  }

  function With(u: bv64, m: bv64): bv64 {
    u | m
  }

  lemma WithOther(u: bv64, m: bv64, n: bv64)
    requires m & n == 0
    ensures Has(With(u, m), n) == Has(u, n)
  {
  }

  lemma WithSame(u: bv64, m: bv64)
    requires m != 0
    ensures Has(With(u, m), m)
  {
  }
}

module GcBits {
  import opened GcMasks

  type Bits = seq<bv64>

  // The bit of object idx; a bit beyond the map is clear.
  predicate Bit(bits: Bits, idx: nat) {
    idx / 64 < |bits| && Has(bits[idx / 64], Mask(idx % 64))
  }

  function SetBit(bits: Bits, idx: nat): Bits
    requires idx / 64 < |bits|
  {
    bits[idx / 64 := With(bits[idx / 64], Mask(idx % 64))]
  }

  // Setting one bit sets that bit and no other.
  lemma SetBitSets(bits: Bits, idx: nat, j: nat)
    requires idx / 64 < |bits|
    ensures |SetBit(bits, idx)| == |bits|
    ensures Bit(SetBit(bits, idx), j) <==> j == idx || Bit(bits, j)
  {
    hide Has, With, Mask;
    if j / 64 == idx / 64 {
      assert idx == 64 * (idx / 64) + idx % 64 && j == 64 * (j / 64) + j % 64;
      var u := bits[idx / 64];
      if j == idx {
        MaskNonzero(idx % 64);
        WithSame(u, Mask(idx % 64));
      } else {
        MasksApart(idx % 64, j % 64);
        WithOther(u, Mask(idx % 64), Mask(j % 64));
      }
    }
  }
}
