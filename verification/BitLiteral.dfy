/** `classify_bit_numeric_literal`: which values of a numeric literal are SQL_BIT values. */
module BitLiteral {
  import opened Options
  import opened MachineWords
  import opened DecimalText
  import opened DecimalValue
  import DecimalAnalysis

  const EXPONENT_CLAMP: int := 1000000000

  datatype BitClass = Zero | One | Fraction | OutOfRange | Invalid

  /** Compares the magnitude of the literal with the integer k: N * 10^Scale against k. */
  function Left(l: Literal): nat
    requires ValidLiteral(l)
  {
    if Scale(l) >= 0 then NatOf(Mantissa(l)) * Pow10(Scale(l)) else NatOf(Mantissa(l))
  }

  function Right(l: Literal, k: nat): nat {
    if Scale(l) >= 0 then k else k * Pow10(-Scale(l))
  }

  /** The class of a rational value: 0, 1, another number in [0, 2), or out of range. */
  function ValueClass(l: Literal): BitClass
    requires ValidLiteral(l)
  {
    if NatOf(Mantissa(l)) == 0 then Zero
    else if l.negative || Left(l) >= Right(l, 2) then OutOfRange
    else if Left(l) == Right(l, 1) then One
    else Fraction
  }

  /** The digit-based verdict of the driver, given the number of integer digits. */
  function DigitVerdict(d: string, integerDigits: int): BitClass
    requires AllDigits(d) && LeadingZeroes(d) < |d|
  {
    if integerDigits <= 0 then Fraction
    else if integerDigits > 1 || DigitValue(d[LeadingZeroes(d)]) > 1 then OutOfRange
    else if LastNonzero(d) == LeadingZeroes(d) + 1 then One
    else Fraction
  }

  function Verdict(l: Literal, power: int): BitClass
    requires ValidLiteral(l)
  {
    var d := Mantissa(l);
    if LeadingZeroes(d) == |d| then Zero
    else if l.negative then OutOfRange
    else DigitVerdict(d, |l.whole| + power - LeadingZeroes(d))
  }

  lemma AppendDigit(n: nat, a: nat, unit: nat, last: nat)
    requires a * unit <= n < (a + 1) * unit && last <= 9
    ensures a * (10 * unit) <= 10 * n + last < (a + 1) * (10 * unit)
    ensures 10 * n + last == a * (10 * unit) <==> n == a * unit && last == 0
  {
    assert a * (10 * unit) == 10 * (a * unit);
    assert (a + 1) * (10 * unit) == 10 * ((a + 1) * unit);
  }

  lemma {:induction false} LeadDigitBounds(d: string)
    requires AllDigits(d) && LeadingZeroes(d) < |d|
    ensures var z := LeadingZeroes(d); var a := DigitValue(d[z]); var unit := Pow10(|d| - z - 1);
      && 1 <= a && a * unit <= NatOf(d) < (a + 1) * unit
      && (NatOf(d) == a * unit <==> LastNonzero(d) == z + 1)
  {
    var init, last := d[..|d| - 1], DigitValue(d[|d| - 1]);
    var z := LeadingZeroes(d);
    LeadingIsZero(init);
    if LeadingZeroes(init) < |init| {
      LeadDigitBounds(init);
      assert init[z] == d[z];
      AppendDigit(NatOf(init), DigitValue(d[z]), Pow10(|init| - z - 1), last);
    } else {
      assert z == |init| && NatOf(init) == 0 && NatOf(d) == last;
      assert Pow10(0) == 1;
    }
  }

  /** Fewer than one integer digit: the value is below 1. */
  lemma BelowOne(l: Literal)
    requires ValidLiteral(l) && Point(l) <= LeadingZeroes(Mantissa(l))
    ensures Left(l) < Right(l, 1)
  {
    var d := Mantissa(l);
    NatBounds(d);
    var significant := |d| - LeadingZeroes(d);
    if significant < -Scale(l) {
      Pow10Grows(significant, -Scale(l));
    } else if Scale(l) >= 0 {
      assert significant == 0 && Scale(l) == 0;
    }
  }

  /** More than one integer digit: the value is at least 10. */
  lemma AtLeastTen(l: Literal)
    requires ValidLiteral(l) && NatOf(Mantissa(l)) != 0 && Point(l) > LeadingZeroes(Mantissa(l)) + 1
    ensures Left(l) >= Right(l, 10)
  {
    var d := Mantissa(l);
    NatBounds(d);
    var significant := |d| - LeadingZeroes(d);
    if Scale(l) >= 0 {
      ScaleUp(NatOf(d), significant, Scale(l));
      Pow10Grows(0, significant + Scale(l) - 1);
    } else {
      Pow10Grows(-Scale(l), significant - 1);
    }
  }

  lemma LeadDigitDecides(n: nat, a: nat, unit: nat)
    requires 1 <= a && 1 <= unit && a * unit <= n < (a + 1) * unit
    ensures n >= 2 * unit <==> a >= 2
    ensures n == unit <==> a == 1 && n == a * unit
  {
    if a >= 2 {
      assert 2 * unit <= a * unit;
    }
  }

  /** One integer digit: the leading digit and the rest decide. */
  lemma OneIntegerDigit(l: Literal)
    requires ValidLiteral(l) && LeadingZeroes(Mantissa(l)) < |Mantissa(l)|
    requires Point(l) == LeadingZeroes(Mantissa(l)) + 1
    ensures var d := Mantissa(l); var a := DigitValue(d[LeadingZeroes(d)]);
      && 1 <= a && (Left(l) >= Right(l, 2) <==> a >= 2)
      && (Left(l) == Right(l, 1) <==> a == 1 && LastNonzero(d) == LeadingZeroes(d) + 1)
  {
    var d := Mantissa(l);
    LeadDigitBounds(d);
    assert -Scale(l) == |d| - LeadingZeroes(d) - 1;
    assert Pow10(0) == 1;
    LeadDigitDecides(NatOf(d), DigitValue(d[LeadingZeroes(d)]), Pow10(-Scale(l)));
  }

  /** With the true exponent the digit-based verdict is the class of the value. */
  lemma VerdictIsValueClass(l: Literal)
    requires ValidLiteral(l)
    ensures Verdict(l, l.exponent) == ValueClass(l)
  {
    LeadingIsZero(Mantissa(l));
    if NatOf(Mantissa(l)) != 0 && !l.negative {
      var size := Point(l) - LeadingZeroes(Mantissa(l));
      if size <= 0 {
        BelowOne(l);
        assert Right(l, 1) <= Right(l, 2);
      } else if size > 1 {
        AtLeastTen(l);
        assert Right(l, 2) <= Right(l, 10);
      } else {
        OneIntegerDigit(l);
      }
    }
  }

  function Clamped(exponent: int): int {
    if exponent > EXPONENT_CLAMP then EXPONENT_CLAMP
    else if exponent < -EXPONENT_CLAMP then -EXPONENT_CLAMP
    else exponent
  }

  /** Reads the exponent digits, clamped to a thousand million. */
  method ReadClampedPower(text: string) returns (rest: string, exponent: SqlLen)
    ensures rest == text[DigitRun(text)..]
    ensures exponent as int == Min(NatOf(text[..DigitRun(text)]), EXPONENT_CLAMP)
  {
    rest, exponent := text, 0;
    ghost var k := 0;
    while rest != [] && IsDigit(rest[0])
      invariant 0 <= k <= |text| && rest == text[k..]
      invariant AllDigits(text[..k])
      invariant exponent as int == Min(NatOf(text[..k]), EXPONENT_CLAMP)
      decreases |rest|
    {
      assert text[..k + 1][..k] == text[..k];
      var next := exponent * 10 + DigitValue(rest[0]) as SqlLen;
      exponent := if next < EXPONENT_CLAMP as SqlLen then next else EXPONENT_CLAMP as SqlLen;
      rest := rest[1..];
      k := k + 1;
    }
    DigitRunStops(text[..k], rest);
    assert text[..k] + rest == text;
  }

  method ReadClampedExponent(text: string) returns (ok: bool, exponent: SqlLen)
    ensures ok <==> ParseExponent(text).Some?
    ensures ok ==> exponent as int == Clamped(ParseExponent(text).value)
  {
    exponent := 0;
    var t := text;
    if t != [] && IsExponentMark(t[0]) {
      t := t[1..];
      var negative := false;
      if t != [] && IsSign(t[0]) {
        negative := t[0] == '-';
        t := t[1..];
      }
      if t == [] || !IsDigit(t[0]) {
        return false, 0;
      }
      var digits := t;
      t, exponent := ReadClampedPower(digits);
      assert digits[..|digits|] == digits;
      if negative {
        exponent := -exponent;
      }
    }
    ok := t == [];
  }

  /** `digits.find_first_not_of('0', from)`; the length of the text when there is none. */
  method FindNonzero(digits: string, from: nat) returns (at: nat)
    requires from <= |digits|
    ensures from <= at <= |digits|
    ensures forall i :: from <= i < at ==> digits[i] == '0'
    ensures at < |digits| ==> digits[at] != '0'
  {
    at := from;
    while at < |digits| && digits[at] == '0'
      invariant from <= at <= |digits|
      invariant forall i :: from <= i < at ==> digits[i] == '0'
    {
      at := at + 1;
    }
  }

  lemma {:induction false} FirstNonzeroIsLeading(d: string, at: nat)
    requires at <= |d| && forall i :: 0 <= i < at ==> d[i] == '0'
    requires at < |d| ==> d[at] != '0'
    ensures at == LeadingZeroes(d)
  {
    if d != [] {
      FirstNonzeroIsLeading(d[..|d| - 1], if at == |d| then at - 1 else at);
    }
  }

  lemma {:induction false} LastNonzeroIsLast(d: string, first: nat, next: nat)
    requires first < next <= |d| && d[first] != '0'
    requires forall i :: first < i < next ==> d[i] == '0'
    requires next < |d| ==> d[next] != '0'
    ensures next == |d| <==> LastNonzero(d) == first + 1
  {
    var init := d[..|d| - 1];
    if d[|d| - 1] == '0' && first < |init| {
      LastNonzeroIsLast(init, first, if next == |d| then next - 1 else next);
    }
  }

  method ClassifyDigits(digits: string, whole: nat, exponent: SqlLen, negative: bool) returns (c: BitClass)
    requires AllDigits(digits) && whole <= |digits| < 0x1000_0000_0000_0000
    requires -EXPONENT_CLAMP <= exponent as int <= EXPONENT_CLAMP
    ensures c == if LeadingZeroes(digits) == |digits| then Zero
                 else if negative then OutOfRange
                 else DigitVerdict(digits, whole + exponent as int - LeadingZeroes(digits))
  {
    var first := FindNonzero(digits, 0);
    FirstNonzeroIsLeading(digits, first);
    if first == |digits| {
      return Zero;
    }
    if negative {
      return OutOfRange;
    }
    var integerDigits := whole as SqlLen + exponent - first as SqlLen;
    if integerDigits <= 0 {
      return Fraction;
    }
    if integerDigits > 1 || digits[first] > '1' {
      return OutOfRange;
    }
    var next := FindNonzero(digits, first + 1);
    LastNonzeroIsLast(digits, first, next);
    return if next == |digits| then One else Fraction;
  }

  /** Appends a run of digits to those collected so far. */
  method CollectDigits(text: string, collected: string) returns (digits: string, rest: string)
    ensures digits == collected + text[..DigitRun(text)] && rest == text[DigitRun(text)..]
  {
    digits := collected;
    var position := 0;
    while position < |text| && IsDigit(text[position])
      invariant 0 <= position <= |text| && digits == collected + text[..position]
      invariant AllDigits(text[..position])
    {
      digits := digits + [text[position]];
      position := position + 1;
    }
    rest := text[position..];
    DigitRunStops(text[..position], rest);
    assert text[..position] + rest == text;
  }

  method CollectMantissa(u: string) returns (digits: string, whole: nat, rest: string)
    ensures whole == DigitRun(u) && rest == SplitFraction(u[whole..]).1
    ensures digits == u[..whole] + SplitFraction(u[whole..]).0
  {
    digits, rest := CollectDigits(u, "");
    whole := |digits|;
    if rest != [] && rest[0] == '.' {
      digits, rest := CollectDigits(rest[1..], digits);
    }
  }

  /** The classifier after blanks and sign. */
  method ClassifyUnsigned(u: string, negative: bool) returns (c: BitClass)
    requires |u| < 0x1000_0000_0000_0000
    ensures c.Invalid? <==> ParseUnsigned(u, negative).None?
    ensures !c.Invalid? ==>
      var l := ParseUnsigned(u, negative).value;
      c == Verdict(l, Clamped(l.exponent))
  {
    hide DigitRun, SplitFraction, ParseExponent, LeadingZeroes, LastNonzero;
    var digits, whole, rest := CollectMantissa(u);
    if digits == [] {
      return Invalid;
    }
    var ok, exponent := ReadClampedExponent(rest);
    if !ok {
      return Invalid;
    }
    ghost var l := ParseUnsigned(u, negative).value;
    assert Mantissa(l) == digits && |l.whole| == whole && l.negative == negative;
    c := ClassifyDigits(digits, whole, exponent, negative);
  }

  /** The whole classifier: it accepts exactly the literals `decimal_digits` accepts, and its
      verdict is the verdict for the clamped exponent. */
  method Classify(text: string) returns (c: BitClass)
    requires |text| < 0x1000_0000_0000_0000
    ensures c.Invalid? <==> Parse(text).None?
    ensures !c.Invalid? ==> c == Verdict(Parse(text).value, Clamped(Parse(text).value.exponent))
  {
    var t := DecimalAnalysis.TrimText(text);
    c := ClassifyUnsigned(DropSign(t), Negated(t));
  }

  /** Zeroes between the decimal point and the first significant digit, negative for integer digits. */
  function Lead(l: Literal): int { LeadingZeroes(Mantissa(l)) - |l.whole| }

  /** The exponents, counted from Lead, from which a value is out of range and up to which it is a
      fraction: a first digit above 1 is never 1, and 1 followed by more is above a fraction only later. */
  function OutFrom(l: Literal): int
    requires ValidLiteral(l) && LeadingZeroes(Mantissa(l)) < |Mantissa(l)|
  {
    if Mantissa(l)[LeadingZeroes(Mantissa(l))] == '1' then 2 else 1
  }

  function FractionTo(l: Literal): int
    requires ValidLiteral(l) && LeadingZeroes(Mantissa(l)) < |Mantissa(l)|
  {
    var d := Mantissa(l);
    if d[LeadingZeroes(d)] == '1' && LastNonzero(d) != LeadingZeroes(d) + 1 then 1 else 0
  }

  /** When the clamp changes nothing: the exponent is within it, the literal is zero or negative, or the
      leading zeroes put the true and the clamped exponent on the same side. */
  predicate ClampHarmless(l: Literal)
    requires ValidLiteral(l)
  {
    || l.exponent == Clamped(l.exponent)
    || LeadingZeroes(Mantissa(l)) == |Mantissa(l)| || l.negative
    || Lead(l) <= Min(l.exponent, Clamped(l.exponent)) - OutFrom(l)
    || Lead(l) >= Max(l.exponent, Clamped(l.exponent)) - FractionTo(l)
  }

  /** Exactly when the classifier reports the class of the value. */
  lemma ClassifyExactIff(l: Literal)
    requires ValidLiteral(l)
    ensures Verdict(l, Clamped(l.exponent)) == ValueClass(l) <==> ClampHarmless(l)
  {
    VerdictIsValueClass(l);
    var d := Mantissa(l);
    LeadingIsZero(d);
    if LeadingZeroes(d) < |d| {
      LeadDigitBounds(d);
    }
  }

  /** In particular for every literal with fewer than a thousand million mantissa digits,
      whatever its exponent: Zero and One mean the values 0 and 1. */
  lemma ClassifyExact(l: Literal)
    requires ValidLiteral(l) && |Mantissa(l)| < EXPONENT_CLAMP
    ensures Verdict(l, Clamped(l.exponent)) == ValueClass(l)
    ensures Verdict(l, Clamped(l.exponent)) == Zero <==> NatOf(Mantissa(l)) == 0
    ensures Verdict(l, Clamped(l.exponent)) == One <==>
            !l.negative && NatOf(Mantissa(l)) != 0 && Left(l) == Right(l, 1)
  {
    ClassifyExactIff(l);
    if Left(l) >= Right(l, 2) && Scale(l) < 0 {
      assert Right(l, 2) > Right(l, 1);
    }
  }

  function Zeroes(n: nat): (s: string)
    ensures |s| == n && AllDigits(s) && forall i :: 0 <= i < n ==> s[i] == '0'
  {
    seq(n, i => '0')
  }

  /** A longer literal can defeat the clamp: 0.00..01e1000000001 with a thousand million
      zeroes is the value 1, but is classified as a fraction. */
  lemma ClampCounterexample(l: Literal)
    requires l == Literal(false, "", Zeroes(EXPONENT_CLAMP) + "1", EXPONENT_CLAMP + 1)
    ensures ValidLiteral(l) && ValueClass(l) == One
    ensures Verdict(l, Clamped(l.exponent)) == Fraction
  {
    var d := Mantissa(l);
    assert d == Zeroes(EXPONENT_CLAMP) + "1";
    FirstNonzeroIsLeading(d, EXPONENT_CLAMP);
    assert d[..|d| - 1] == Zeroes(EXPONENT_CLAMP);
    FirstNonzeroIsLeading(Zeroes(EXPONENT_CLAMP), EXPONENT_CLAMP);
    LeadingIsZero(Zeroes(EXPONENT_CLAMP));
    assert NatOf(d) == 1;
  }
}
