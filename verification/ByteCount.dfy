/** The scaling loops behind the human-readable byte counts. */
module ByteCount {
  import opened Arith

  type int64 = x: int | -0x8000_0000_0000_0000 <= x <= 0x7fff_ffff_ffff_ffff

  /** Either the plain count, or a divisor with its suffix letter. */
  datatype Scaled = Plain(bytes: int64) | Scaled(div: int64, exp: nat, suffix: char)

  /** e is the largest exponent whose power of unit does not exceed b. */
  ghost predicate IsScale(unit: nat, b: int, e: nat) {
    Pow(unit, e) <= b < Pow(unit, e + 1)
  }

  lemma {:induction false} PowMonotone(unit: nat, d: nat, e: nat)
    requires unit >= 1 && d <= e
    ensures 1 <= Pow(unit, d) <= Pow(unit, e)
  {
    if d < e {
      PowMonotone(unit, d, e - 1);
      MulAtLeast(unit, Pow(unit, e - 1));
    } else if d > 0 {
      PowMonotone(unit, d - 1, e - 1);
      MulAtLeast(unit, Pow(unit, e - 1));
    }
  }

  lemma MulAtLeast(unit: nat, p: nat)
    requires unit >= 1
    ensures unit * p >= p
  {
    assert unit * p == p + (unit - 1) * p;
  }

  /** The scale of a number is unique, so the loops below leave no choice of suffix. */
  lemma ScaleUnique(unit: nat, b: int, d: nat, e: nat)
    requires unit >= 1 && IsScale(unit, b, d) && IsScale(unit, b, e)
    ensures d == e
  {
    if d < e {
      PowMonotone(unit, d + 1, e);
    } else if e < d {
      PowMonotone(unit, e + 1, d);
    }
  }

  /** One turn of the loop keeps n equal to b divided by div, rounded down. */
  lemma DivideStep(unit: nat, b: int, n: int, div: nat)
    requires unit >= 1 && n >= unit && n * div <= b < (n + 1) * div
    ensures n / unit * (div * unit) <= b < (n / unit + 1) * (div * unit)
    ensures div * unit <= b
  {
    var q := n / unit;
    DivMod(n, unit);
    Distribute(q, 1, unit);
    MulMonotone(q * unit, n, div);
    MulMonotone(n + 1, (q + 1) * unit, div);
    MulMonotone(unit, n, div);
    Associate(q, unit, div);
    Associate(q + 1, unit, div);
  }

  method ByteCountDecimal(b: int64) returns (r: Scaled)
    ensures b < 1000 ==> r == Plain(b)
    ensures b >= 1000 ==> r.Scaled? && r.exp <= 5 && r.suffix == "kMGTPE"[r.exp]
    ensures b >= 1000 ==> r.div == Pow(1000, r.exp + 1) && IsScale(1000, b, r.exp + 1)
  {
    if b < 1000 {
      return Plain(b);
    }
    var div: int64, exp: nat := 1000, 0;
    var n := b / 1000;
    while n >= 1000
      invariant n >= 1 && n * div <= b < (n + 1) * div
      invariant div >= 1 && div == Pow(1000, exp + 1) && exp <= 5
      decreases n
    {
      DivideStep(1000, b, n, div);
      assert exp == 5 ==> div == 1000000000000000000;
      div := div * 1000;
      exp := exp + 1;
      n := n / 1000;
    }
    MulMonotone(1, n, div);
    MulMonotone(n + 1, 1000, div);
    r := Scaled(div, exp, "kMGTPE"[exp]);
  }

  method ByteCountBinary(b: int64) returns (r: Scaled)
    ensures b < 1024 ==> r == Plain(b)
    ensures b >= 1024 ==> r.Scaled? && r.exp <= 5 && r.suffix == "KMGTPE"[r.exp]
    ensures b >= 1024 ==> r.div == Pow(1024, r.exp + 1) && IsScale(1024, b, r.exp + 1)
  {
    if b < 1024 {
      return Plain(b);
    }
    var div: int64, exp: nat := 1024, 0;
    var n := b / 1024;
    while n >= 1024
      invariant n >= 1 && n * div <= b < (n + 1) * div
      invariant div >= 1 && div == Pow(1024, exp + 1) && exp <= 5
      decreases n
    {
      DivideStep(1024, b, n, div);
      assert exp == 5 ==> div == 1152921504606846976;
      div := div * 1024;
      exp := exp + 1;
      n := n / 1024;
    }
    MulMonotone(1, n, div);
    MulMonotone(n + 1, 1024, div);
    r := Scaled(div, exp, "KMGTPE"[exp]);
  }
}
