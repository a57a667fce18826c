/** Digit counts of a literal against its rational value. */
module DecimalValue {
  import opened MachineWords
  import opened DecimalText

  function Pow10(n: nat): (p: nat)
    ensures p >= 1
  {
    if n == 0 then 1 else 10 * Pow10(n - 1)
  }

  lemma {:induction false} Pow10Adds(a: nat, b: nat)
    ensures Pow10(a + b) == Pow10(a) * Pow10(b)
  {
    if b != 0 {
      Pow10Adds(a, b - 1);
    }
  }

  lemma {:induction false} Pow10Grows(a: nat, b: nat)
    requires a < b
    ensures Pow10(a) * 10 <= Pow10(b)
  {
    Pow10Adds(a + 1, b - (a + 1));
    assert Pow10(a + 1) * 1 <= Pow10(a + 1) * Pow10(b - (a + 1));
  }

  // ---- shape of a digit string ----------------------------------------------------

  function LeadingZeroes(d: string): (z: nat)
    ensures z <= |d|
  {
    if d == [] then 0
    else
      var z := LeadingZeroes(d[..|d| - 1]);
      if z == |d| - 1 && d[|d| - 1] == '0' then z + 1 else z
  }

  /** 1-based position of the last digit that is not zero, 0 if there is none. */
  function LastNonzero(d: string): (p: nat)
    ensures p <= |d|
  {
    if d == [] then 0
    else if d[|d| - 1] != '0' then |d|
    else LastNonzero(d[..|d| - 1])
  }

  lemma {:induction false} LeadingIsZero(d: string)
    requires AllDigits(d)
    ensures LeadingZeroes(d) == |d| <==> NatOf(d) == 0
    ensures LastNonzero(d) == 0 <==> NatOf(d) == 0
    ensures NatOf(d) != 0 ==> LeadingZeroes(d) < LastNonzero(d)
  {
    if d != [] {
      LeadingIsZero(d[..|d| - 1]);
    }
  }

  /** The number has |d| - LeadingZeroes(d) significant digits. */
  lemma {:induction false} NatBounds(d: string)
    requires AllDigits(d)
    ensures NatOf(d) < Pow10(|d| - LeadingZeroes(d))
    ensures NatOf(d) != 0 ==>
      LeadingZeroes(d) < |d| && Pow10(|d| - LeadingZeroes(d) - 1) <= NatOf(d)
  {
    if d != [] {
      var init := d[..|d| - 1];
      NatBounds(init);
      LeadingIsZero(init);
      LeadingIsZero(d);
    }
  }

  /** Trailing zeroes are exactly the factors of ten. */
  lemma {:induction false} TrailingZeroes(d: string) returns (core: nat)
    requires AllDigits(d) && NatOf(d) != 0
    ensures NatOf(d) == core * Pow10(|d| - LastNonzero(d)) && core % 10 != 0
  {
    var init, last := d[..|d| - 1], DigitValue(d[|d| - 1]);
    if d[|d| - 1] != '0' {
      core := NatOf(d);
    } else {
      core := TrailingZeroes(init);
      LeadingIsZero(init);
      assert NatOf(d) == 10 * (core * Pow10(|init| - LastNonzero(init)));
      assert |d| - LastNonzero(d) == |init| - LastNonzero(init) + 1;
    }
  }

  // ---- digits before and after the decimal point ----------------------------------

  /** Position of the decimal point counted in mantissa digits. */
  function Point(l: Literal): int {
    |l.whole| + l.exponent
  }

  function WholeDigits(l: Literal): (w: nat)
    requires ValidLiteral(l)
  {
    if NatOf(Mantissa(l)) == 0 then 0 else Max(0, Point(l) - LeadingZeroes(Mantissa(l)))
  }

  function FractionDigits(l: Literal): (f: nat)
    requires ValidLiteral(l)
  {
    if NatOf(Mantissa(l)) == 0 then 0 else Max(0, LastNonzero(Mantissa(l)) - Point(l))
  }

  /** v / 10^scale has the magnitude of the literal: exact equality of rationals. */
  ghost predicate Denotes(l: Literal, scale: nat, v: nat)
    requires ValidLiteral(l)
  {
    var shift := Scale(l) + scale;
    if shift >= 0 then v == NatOf(Mantissa(l)) * Pow10(shift)
    else v * Pow10(-shift) == NatOf(Mantissa(l))
  }

  /** The value is a DECIMAL(precision, scale) value. */
  ghost predicate Representable(l: Literal, precision: nat, scale: nat)
    requires ValidLiteral(l)
  {
    exists v: nat :: v < Pow10(precision) && Denotes(l, scale, v)
  }

  /** Without enough trailing zeroes no scaled integer has the value. */
  lemma TooManyFractionDigits(l: Literal, scale: nat, v: nat)
    requires ValidLiteral(l) && FractionDigits(l) > scale
    ensures !Denotes(l, scale, v)
  {
    var d := Mantissa(l);
    var core := TrailingZeroes(d);
    var trailing := |d| - LastNonzero(d);
    var missing := -(Scale(l) + scale);
    assert missing > trailing;
    if v * Pow10(missing) == NatOf(d) {
      Pow10Adds(trailing, missing - trailing);
      var more := Pow10(missing - trailing);
      assert v * more * Pow10(trailing) == core * Pow10(trailing) by {
        assert v * (Pow10(trailing) * more) == v * more * Pow10(trailing);
      }
      CancelFactor(v * more, core, Pow10(trailing));
      assert more == 10 * Pow10(missing - trailing - 1);
      TenDivides(v, Pow10(missing - trailing - 1), core);
    }
  }

  lemma MultiplyStrict(a: int, b: int, c: int)
    requires c > 0 && a < b
    ensures a * c < b * c
  {
  }

  lemma CancelFactor(a: int, b: int, c: int)
    requires c > 0 && a * c == b * c
    ensures a == b
  {
    if a < b {
      MultiplyStrict(a, b, c);
    } else if b < a {
      MultiplyStrict(b, a, c);
    }
  }

  lemma TenDivides(v: nat, p: nat, core: nat)
    requires v * (10 * p) == core
    ensures core % 10 == 0
  {
    assert core == 10 * (v * p);
  }

  lemma ScaleUp(n: nat, digits: nat, shift: nat)
    requires digits >= 1 && Pow10(digits - 1) <= n < Pow10(digits)
    ensures Pow10(digits + shift - 1) <= n * Pow10(shift) < Pow10(digits + shift)
  {
    Pow10Adds(digits - 1, shift);
    Pow10Adds(digits, shift);
    MultiplyStrict(n, Pow10(digits), Pow10(shift));
    if Pow10(digits - 1) < n {
      MultiplyStrict(Pow10(digits - 1), n, Pow10(shift));
    }
  }

  lemma ScaleDown(v: nat, digits: nat, shift: nat)
    requires digits >= shift + 1 && Pow10(digits - 1) <= v * Pow10(shift) < Pow10(digits)
    ensures Pow10(digits - shift - 1) <= v < Pow10(digits - shift)
  {
    Pow10Adds(digits - 1 - shift, shift);
    Pow10Adds(digits - shift, shift);
    if v < Pow10(digits - shift - 1) {
      MultiplyStrict(v, Pow10(digits - shift - 1), Pow10(shift));
    }
    if Pow10(digits - shift) < v {
      MultiplyStrict(Pow10(digits - shift), v, Pow10(shift));
    }
  }

  /** Dividing out trailing zeroes. */
  lemma DropZeroes(d: string, drop: nat) returns (v: nat)
    requires AllDigits(d) && NatOf(d) != 0 && drop <= |d| - LastNonzero(d)
    ensures v * Pow10(drop) == NatOf(d)
  {
    var core := TrailingZeroes(d);
    var trailing := |d| - LastNonzero(d);
    Pow10Adds(trailing - drop, drop);
    v := core * Pow10(trailing - drop);
    assert v * Pow10(drop) == core * (Pow10(trailing - drop) * Pow10(drop));
  }

  /** With enough trailing zeroes one scaled integer has the value, and its number of digits
      is known. */
  lemma ScaledInteger(l: Literal, scale: nat) returns (v: nat)
    requires ValidLiteral(l) && NatOf(Mantissa(l)) != 0 && FractionDigits(l) <= scale
    ensures Denotes(l, scale, v)
    ensures var size := Point(l) - LeadingZeroes(Mantissa(l)) + scale;
      size >= 1 && Pow10(size - 1) <= v < Pow10(size)
  {
    var d := Mantissa(l);
    var shift := Scale(l) + scale;
    NatBounds(d);
    LeadingIsZero(d);
    if shift >= 0 {
      v := NatOf(d) * Pow10(shift);
      ScaleUp(NatOf(d), |d| - LeadingZeroes(d), shift);
    } else {
      v := DropZeroes(d, -shift);
      ScaleDown(v, |d| - LeadingZeroes(d), -shift);
    }
  }

  lemma DenotesOnce(l: Literal, scale: nat, v: nat, w: nat)
    requires ValidLiteral(l) && Denotes(l, scale, v) && Denotes(l, scale, w)
    ensures v == w
  {
    var shift := Scale(l) + scale;
    if shift < 0 {
      CancelFactor(v, w, Pow10(-shift));
    }
  }

  /** A literal fits DECIMAL(precision, scale) exactly iff its whole digits fit in front of the
      point and its fraction digits behind it. */
  lemma DigitsDecideRepresentable(l: Literal, precision: nat, scale: nat)
    requires ValidLiteral(l) && scale <= precision
    ensures WholeDigits(l) <= precision - scale && FractionDigits(l) <= scale <==>
            Representable(l, precision, scale)
  {
    if NatOf(Mantissa(l)) == 0 {
      assert Denotes(l, scale, 0);
    } else if FractionDigits(l) > scale {
      forall v: nat ensures !Denotes(l, scale, v) {
        TooManyFractionDigits(l, scale, v);
      }
    } else {
      var v := ScaledInteger(l, scale);
      var size := Point(l) - LeadingZeroes(Mantissa(l)) + scale;
      if size <= precision {
        if size < precision {
          Pow10Grows(size, precision);
        }
        assert v < Pow10(precision);
      } else {
        if precision < size - 1 {
          Pow10Grows(precision, size - 1);
        }
        forall w: nat | Denotes(l, scale, w) ensures w >= Pow10(precision) {
          DenotesOnce(l, scale, v, w);
        }
      }
    }
  }
}
