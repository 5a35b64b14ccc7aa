/** Difficulty and target arithmetic over unbounded integers. */
module Targets {
  import opened Bytes

  /** The target of difficulty one: 0xffff * 2^208. */
  const DIFF_ONE: nat := 0xffff_0000000000000000000000000000000000000000000000000000

  function TargetToDiff(val: nat): nat
    requires val > 0
  {
    DIFF_ONE / val
  }

  function DiffToTarget(val: nat): nat
    requires val > 0
  {
    TargetToDiff(val)
  }

  /** The compact form: a 3-byte mantissa shifted by (exponent - 3) bytes. */
  function TargetFromBits(bits: U32): nat
    requires bits >= 0x0300_0000
  {
    (bits % 0x100_0000) * Pow256(bits / 0x100_0000 - 3)
  }

  lemma DiffOneFromBits()
    ensures TargetFromBits(0x1d00_ffff) == DIFF_ONE
    ensures DIFF_ONE == 0xffff * Pow256(26)
  {
    assert Pow256(8) == 0x1_0000_0000_0000_0000;
    assert Pow256(16) == 0x1_0000_0000_0000_0000_0000_0000_0000_0000;
    assert Pow256(24) == 0x1_0000_0000_0000_0000_0000_0000_0000_0000_0000_0000_0000_0000;
  }

  /** What the compact form means: the 3-byte mantissa, little-endian, over (exponent - 3) zero bytes. */
  lemma TargetMeaning(e: nat, m: nat)
    requires 3 <= e < 256 && m < 0x100_0000
    ensures TargetFromBits(e * 0x100_0000 + m) == FromLE(seq(e - 3, _ => 0) + LE(m, 3))
  {
    hide FromLE, LE;
    var bits := e * 0x100_0000 + m;
    assert bits % 0x100_0000 == m && bits / 0x100_0000 == e;
    FromLEOfLE(m, 3);
    Pow256Three();
    ZerosBelow(e - 3, LE(m, 3));
  }

  lemma Pow256Three()
    ensures Pow256(3) == 0x100_0000
  {
    assert Pow256(2) == 0x1_0000;
  }

  /** Zero bytes below shift the value up. */
  lemma {:induction false} ZerosBelow(k: nat, s: Data)
    ensures FromLE(seq(k, _ => 0) + s) == FromLE(s) * Pow256(k)
  {
    if k == 0 {
      assert seq(0, _ => 0) + s == s;
    } else {
      ZerosBelow(k - 1, s);
      var z := seq(k, _ => 0) + s;
      assert z[1..] == seq(k - 1, _ => 0) + s;
      assert FromLE(z) == 256 * FromLE(z[1..]);
      MulThree(256, FromLE(s), Pow256(k - 1));
    }
  }

  lemma MulThree(a: nat, b: nat, c: nat)
    ensures a * (b * c) == b * (a * c)
  {
  }

  /** A larger mantissa is a larger target, and one exponent more is 256 times the target. */
  lemma TargetIncreases(e: nat, m: nat, m': nat)
    requires 3 <= e < 256 && m < m' < 0x100_0000
    ensures TargetFromBits(e * 0x100_0000 + m) < TargetFromBits(e * 0x100_0000 + m')
    ensures e < 255 ==> TargetFromBits((e + 1) * 0x100_0000 + m) == 256 * TargetFromBits(e * 0x100_0000 + m)
  {
    var p := Pow256(e - 3);
    assert (e * 0x100_0000 + m) % 0x100_0000 == m && (e * 0x100_0000 + m) / 0x100_0000 == e;
    assert (e * 0x100_0000 + m') % 0x100_0000 == m' && (e * 0x100_0000 + m') / 0x100_0000 == e;
    LargerProduct(m, m', p);
    if e < 255 {
      assert ((e + 1) * 0x100_0000 + m) % 0x100_0000 == m && ((e + 1) * 0x100_0000 + m) / 0x100_0000 == e + 1;
      MulThree(256, m, p);
    }
  }

  lemma LargerProduct(a: nat, b: nat, p: nat)
    requires a < b && p > 0
    ensures a * p < b * p
  {
  }

  lemma DivBounds(c: nat, d: nat)
    requires d > 0
    ensures c / d * d <= c < c / d * d + d
  {
  }

  /** Floor division and multiplication are adjoint. */
  lemma AtMostQuotient(h: nat, d: nat, c: nat)
    requires d > 0
    ensures h <= c / d <==> h * d <= c
  {
    var t := c / d;
    DivBounds(c, d);
    if h <= t {
      MulMonotone(h, t, d);
    } else {
      MulMonotone(t + 1, h, d);
      assert (t + 1) * d == t * d + d;
    }
  }

  lemma MulMonotone(a: nat, b: nat, d: nat)
    requires a <= b
    ensures a * d <= b * d
  {
  }

  /** A hash meets the target of a difficulty exactly when its own difficulty is at least that. */
  lemma MeetsTarget(h: nat, d: nat)
    requires h > 0 && d > 0
    ensures h <= DiffToTarget(d) <==> TargetToDiff(h) >= d
    ensures h <= DiffToTarget(d) <==> h * d <= DIFF_ONE
  {
    hide *;
    QuotientForm(h, d);
    AtMostQuotient(h, d, DIFF_ONE);
    AtMostQuotient(d, h, DIFF_ONE);
  }

  lemma QuotientForm(h: nat, d: nat)
    requires h > 0 && d > 0
    ensures DiffToTarget(d) == DIFF_ONE / d && TargetToDiff(h) == DIFF_ONE / h
  {
  }

  /** The two floor divisions lose nothing for any 64-bit difficulty. */
  lemma DiffRoundTrip(d: U64)
    requires d >= 1
    ensures DiffToTarget(d) > 0
    ensures TargetToDiff(DiffToTarget(d)) == d
  {
    var t := DIFF_ONE / d;
    var r := DIFF_ONE % d;
    assert DIFF_ONE == d * t + r;
    AtMostQuotient(0x1_0000_0000_0000_0000, d, DIFF_ONE);
    MulMonotone(d, 0x1_0000_0000_0000_0000, 0x1_0000_0000_0000_0000);
    DivModUnique(DIFF_ONE, t, d, r);
  }
}
