/** pow2gt, the rounding-up that sizes cJSON's print buffer. */
module PowerOfTwo {

  ghost function Pow2(k: nat): (p: nat)
    ensures p > 0
  {
    if k == 0 then 1 else 2 * Pow2(k - 1)
  }

  /** The power of two that pow2gt is after; its bit-smearing form is Pow2Gt below. */
  function LeastPow2(x: nat): (r: nat)
    requires x >= 1
    ensures x <= r < 2 * x
  {
    if x == 1 then 1 else 2 * LeastPow2((x + 1) / 2)
  }

  lemma {:induction false} Pow2Grows(j: nat, k: nat)
    requires j < k
    ensures 2 * Pow2(j) <= Pow2(k)
  {
    if j + 1 < k { Pow2Grows(j, k - 1); }
  }

  /** LeastPow2 is a power of two, and every power of two that reaches `x` reaches it. */
  lemma {:induction false} LeastPow2IsLeast(x: nat) returns (k: nat)
    requires x >= 1
    ensures LeastPow2(x) == Pow2(k)
    ensures forall j: nat :: x <= Pow2(j) ==> LeastPow2(x) <= Pow2(j)
  {
    if x == 1 {
      k := 0;
    } else {
      var half := LeastPow2IsLeast((x + 1) / 2);
      k := half + 1;
    }
    forall j: nat | x <= Pow2(j)
      ensures LeastPow2(x) <= Pow2(j)
    {
      if j < k { Pow2Grows(j, k); }
      if k < j { Pow2Grows(k, j); }
    }
  }

  /** pow2gt as written, on 32-bit words. */
  function Pow2Gt(x: bv32): (r: bv32) {
    var a := x - 1;
    var b := a | (a >> 1);
    var c := b | (b >> 2);
    var d := c | (c >> 4);
    var e := d | (d >> 8);
    var f := e | (e >> 16);
    f + 1
  }

  predicate PowerWord(r: bv32) {
    || r == 0x1 || r == 0x2 || r == 0x4 || r == 0x8 || r == 0x10 || r == 0x20 || r == 0x40 || r == 0x80
    || r == 0x100 || r == 0x200 || r == 0x400 || r == 0x800
    || r == 0x1000 || r == 0x2000 || r == 0x4000 || r == 0x8000
    || r == 0x1_0000 || r == 0x2_0000 || r == 0x4_0000 || r == 0x8_0000
    || r == 0x10_0000 || r == 0x20_0000 || r == 0x40_0000 || r == 0x80_0000
    || r == 0x100_0000 || r == 0x200_0000 || r == 0x400_0000 || r == 0x800_0000
    || r == 0x1000_0000 || r == 0x2000_0000 || r == 0x4000_0000
  }

  lemma Pow2GtBits(x: bv32)
    requires 1 <= x <= 0x4000_0000
    ensures Pow2Gt(x) & (Pow2Gt(x) - 1) == 0
    ensures x <= Pow2Gt(x) <= 0x4000_0000
    ensures Pow2Gt(x) >> 1 < x
  {
  }

  lemma SingleBit(r: bv32)
    requires r != 0 && r & (r - 1) == 0 && r <= 0x4000_0000
    ensures PowerWord(r)
  {
  }

  lemma PowerWordBounds(x: bv32, r: bv32)
    requires PowerWord(r)
    requires x <= r && r >> 1 < x
    ensures x as int <= r as int < 2 * (x as int)
  {
  }

  lemma Pow2Values()
    ensures Pow2(0) == 0x1 && Pow2(1) == 0x2 && Pow2(2) == 0x4 && Pow2(3) == 0x8
    ensures Pow2(4) == 0x10 && Pow2(5) == 0x20 && Pow2(6) == 0x40 && Pow2(7) == 0x80
    ensures Pow2(8) == 0x100 && Pow2(9) == 0x200 && Pow2(10) == 0x400 && Pow2(11) == 0x800
    ensures Pow2(12) == 0x1000 && Pow2(13) == 0x2000 && Pow2(14) == 0x4000 && Pow2(15) == 0x8000
    ensures Pow2(16) == 0x1_0000 && Pow2(17) == 0x2_0000 && Pow2(18) == 0x4_0000 && Pow2(19) == 0x8_0000
    ensures Pow2(20) == 0x10_0000 && Pow2(21) == 0x20_0000 && Pow2(22) == 0x40_0000 && Pow2(23) == 0x80_0000
    ensures Pow2(24) == 0x100_0000 && Pow2(25) == 0x200_0000 && Pow2(26) == 0x400_0000 && Pow2(27) == 0x800_0000
    ensures Pow2(28) == 0x1000_0000 && Pow2(29) == 0x2000_0000 && Pow2(30) == 0x4000_0000
  {
  }

  lemma PowerWordIsPow2(r: bv32) returns (k: nat)
    requires PowerWord(r)
    ensures r as int == Pow2(k)
  {
    Pow2Values();
    hide Pow2;
    k :=
      if r == 0x1 then 0 else if r == 0x2 then 1 else if r == 0x4 then 2 else if r == 0x8 then 3 else
       if r == 0x10 then 4 else if r == 0x20 then 5 else if r == 0x40 then 6 else if r == 0x80 then 7 else
       if r == 0x100 then 8 else if r == 0x200 then 9 else if r == 0x400 then 10 else if r == 0x800 then 11 else
       if r == 0x1000 then 12 else if r == 0x2000 then 13 else if r == 0x4000 then 14 else if r == 0x8000 then 15 else
       if r == 0x1_0000 then 16 else if r == 0x2_0000 then 17 else
       if r == 0x4_0000 then 18 else if r == 0x8_0000 then 19 else
       if r == 0x10_0000 then 20 else if r == 0x20_0000 then 21 else
       if r == 0x40_0000 then 22 else if r == 0x80_0000 then 23 else
       if r == 0x100_0000 then 24 else if r == 0x200_0000 then 25 else
       if r == 0x400_0000 then 26 else if r == 0x800_0000 then 27 else
       if r == 0x1000_0000 then 28 else if r == 0x2000_0000 then 29 else 30;
  }

  lemma OnlyPowerInReach(x: nat, p: nat, j: nat)
    requires x >= 1
    requires p == Pow2(j) && x <= p < 2 * x
    ensures p == LeastPow2(x)
  {
    var k := LeastPow2IsLeast(x);
    if j < k { Pow2Grows(j, k); }
    if k < j { Pow2Grows(k, j); }
  }

  lemma Pow2GtWord(x: bv32, r: bv32)
    requires 1 <= x <= 0x4000_0000 && r == Pow2Gt(x)
    ensures PowerWord(r) && r >> 1 < x <= r
  {
    hide PowerWord;
    Pow2GtBits(x);
    SingleBit(r);
  }

  /** pow2gt finds the least power of two, for every request up to 2^30. */
  lemma Pow2GtIsLeast(x: bv32)
    requires 1 <= x <= 0x4000_0000
    ensures x as int >= 1 && Pow2Gt(x) as int == LeastPow2(x as int)
  {
    hide PowerWord, Pow2Gt, LeastPow2, Pow2;
    var r := Pow2Gt(x);
    Pow2GtWord(x, r);
    PowerWordBounds(x, r);
    var j := PowerWordIsPow2(r);
    OnlyPowerInReach(x as int, r as int, j);
  }
}
