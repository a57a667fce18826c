/** `decimal_digits` and the DECIMAL range check, in the driver's saturating arithmetic. */
module DecimalAnalysis {
  import opened Options
  import opened MachineWords
  import opened DecimalText
  import opened DecimalValue

  const MAXIMUM: Size := SIZE_MAX as Size

  /** The counters that `record_digit` updates. */
  datatype Tally = Tally(total: Size, leadingZeroes: Size, lastNonzero: Size, seenNonzero: bool)

  ghost predicate Tallies(t: Tally, digits: string) {
    && t.total as int == |digits|
    && t.leadingZeroes as int == LeadingZeroes(digits)
    && t.lastNonzero as int == LastNonzero(digits)
    && (t.seenNonzero <==> LeadingZeroes(digits) < |digits|)
  }

  method RecordDigit(t: Tally, digit: char, ghost digits: string) returns (t': Tally)
    requires Tallies(t, digits) && IsDigit(digit) && |digits| < SIZE_MAX
    ensures Tallies(t', digits + [digit])
  {
    assert (digits + [digit])[..|digits|] == digits;
    t' := t.(total := t.total + 1);
    if digit != '0' {
      t' := t'.(lastNonzero := t'.total);
    }
    if !t.seenNonzero {
      if digit == '0' {
        t' := t'.(leadingZeroes := t.leadingZeroes + 1);
      } else {
        t' := t'.(seenNonzero := true);
      }
    }
  }

  /** Consumes a run of digits. */
  method TakeDigits(text: string, tally: Tally, ghost before: string)
    returns (rest: string, tally': Tally, count: Size)
    requires Tallies(tally, before) && |before| + |text| <= SIZE_MAX
    ensures count as int == DigitRun(text) && rest == text[DigitRun(text)..]
    ensures Tallies(tally', before + text[..DigitRun(text)])
  {
    rest, tally', count := text, tally, 0;
    assert before + text[..0] == before;
    while rest != [] && IsDigit(rest[0])
      invariant count as int <= |text| && rest == text[count as int..]
      invariant AllDigits(text[..count as int])
      invariant Tallies(tally', before + text[..count as int])
      decreases |rest|
    {
      tally' := RecordDigit(tally', rest[0], before + text[..count as int]);
      assert before + text[..count as int] + [rest[0]] == before + text[..count as int + 1];
      count := count + 1;
      rest := rest[1..];
    }
    DigitRunStops(text[..count as int], rest);
    assert text[..count as int] + rest == text;
  }

  /** Reads the exponent digits, saturating at the largest size. */
  method ReadPower(text: string) returns (rest: string, exponent: Size)
    ensures rest == text[DigitRun(text)..]
    ensures exponent as int == Min(NatOf(text[..DigitRun(text)]), SIZE_MAX)
  {
    rest, exponent := text, 0;
    ghost var k := 0;
    while rest != [] && IsDigit(rest[0])
      invariant 0 <= k <= |text| && rest == text[k..]
      invariant AllDigits(text[..k])
      invariant exponent as int == Min(NatOf(text[..k]), SIZE_MAX)
      decreases |rest|
    {
      var digit := DigitValue(rest[0]) as Size;
      assert text[..k + 1][..k] == text[..k];
      exponent := if exponent > (MAXIMUM - digit) / 10 then MAXIMUM else exponent * 10 + digit;
      rest := rest[1..];
      k := k + 1;
    }
    DigitRunStops(text[..k], rest);
    assert text[..k] + rest == text;
  }

  method TrimText(text: string) returns (t: string)
    ensures t == Trim(text)
  {
    t := text;
    while t != [] && IsBlank(t[0])
      invariant TrimFront(t) == TrimFront(text)
      decreases |t|
    {
      t := t[1..];
    }
    while t != [] && IsBlank(t[|t| - 1])
      invariant TrimBack(t) == Trim(text)
      decreases |t|
    {
      t := t[..|t| - 1];
    }
  }

  /** What the text after the mantissa means: a saturated magnitude and a sign. */
  method ReadExponent(text: string) returns (ok: bool, exponent: Size, negative: bool)
    ensures ok <==> ParseExponent(text).Some?
    ensures ok ==> negative == (ParseExponent(text).value < 0 || (negative && ParseExponent(text).value == 0))
    ensures ok ==> exponent as int == Min(Magnitude(ParseExponent(text).value), SIZE_MAX)
  {
    exponent, negative := 0, false;
    var t := text;
    if t != [] && IsExponentMark(t[0]) {
      t := t[1..];
      if t != [] && IsSign(t[0]) {
        negative := t[0] == '-';
        t := t[1..];
      }
      if t == [] || !IsDigit(t[0]) {
        return false, 0, negative;
      }
      var digits := t;
      t, exponent := ReadPower(digits);
      assert digits[..|digits|] == digits;
    }
    ok := t == [];
  }

  function Magnitude(x: int): nat {
    if x < 0 then -x else x
  }

  function SaturatingAdd(left: Size, right: Size): (sum: Size)
    ensures sum as int == Min(left as int + right as int, SIZE_MAX)
  {
    if right > MAXIMUM - left then MAXIMUM else left + right
  }

  datatype Digits = Digits(whole: Size, fractional: Size)

  /** Exact, unless both the count and the truth are beyond the limit. */
  ghost predicate ExactUpTo(count: Size, truth: int, limit: int) {
    count as int == truth || (count as int > limit && truth > limit)
  }

  /** The closing arithmetic of `decimal_digits`. */
  method CountDigits(tally: Tally, before: Size, exponent: Size, negative: bool, ghost power: int,
                     ghost length: nat) returns (d: Digits)
    requires tally.leadingZeroes < tally.lastNonzero && tally.lastNonzero as int <= length
    requires before as int <= length <= SIZE_MAX
    requires if negative then power <= 0 else power >= 0
    requires exponent as int == Min(Magnitude(power), SIZE_MAX)
    requires exponent as int < Magnitude(power) ==> before as int < length
    ensures ExactUpTo(d.whole, Max(0, before as int + power - tally.leadingZeroes as int), SIZE_MAX - length)
    ensures ExactUpTo(d.fractional, Max(0, tally.lastNonzero as int - before as int - power), SIZE_MAX - length)
  {
    var shifted := if negative then (if exponent >= before then 0 else before - exponent)
                   else SaturatingAdd(before, exponent);
    var fractional := if negative && exponent > before
      then SaturatingAdd(tally.lastNonzero, exponent - before)
      else if tally.lastNonzero > shifted then tally.lastNonzero - shifted else 0;
    d := Digits(if shifted > tally.leadingZeroes then shifted - tally.leadingZeroes else 0, fractional);
  }

  /** The mantissa of a text without blanks or sign. */
  method ReadMantissa(text: string) returns (rest: string, tally: Tally, before: Size)
    requires |text| <= SIZE_MAX
    ensures before as int == DigitRun(text) && rest == SplitFraction(text[DigitRun(text)..]).1
    ensures Tallies(tally, text[..DigitRun(text)] + SplitFraction(text[DigitRun(text)..]).0)
  {
    rest, tally, before := TakeDigits(text, Tally(0, 0, 0, false), "");
    ghost var whole := text[..DigitRun(text)];
    assert "" + whole == whole && whole + "" == whole;
    if rest != [] && rest[0] == '.' {
      var ignored;
      rest, tally, ignored := TakeDigits(rest[1..], tally, whole);
    }
  }

  method UnsignedDigits(t: string, ghost negated: bool, ghost length: nat) returns (r: Option<Digits>)
    requires |t| <= length <= SIZE_MAX
    ensures r.Some? <==> ParseUnsigned(t, negated).Some?
    ensures r.Some? ==> ExactUpTo(r.value.whole, WholeDigits(ParseUnsigned(t, negated).value), SIZE_MAX - length)
    ensures r.Some? ==>
      ExactUpTo(r.value.fractional, FractionDigits(ParseUnsigned(t, negated).value), SIZE_MAX - length)
  {
    hide DigitRun, LeadingZeroes, LastNonzero, NatOf;
    var rest, tally, before := ReadMantissa(t);
    if tally.total == 0 {
      return None;
    }
    var ok, exponent, negative := ReadExponent(rest);
    if !ok {
      return None;
    }
    ghost var l := ParseUnsigned(t, negated).value;
    LeadingIsZero(Mantissa(l));
    if !tally.seenNonzero {
      return Some(Digits(0, 0));
    }
    assert exponent as int < Magnitude(l.exponent) ==> rest != [];
    var d := CountDigits(tally, before, exponent, negative, l.exponent, length);
    return Some(d);
  }

  /** `decimal_digits`: rejects exactly the texts outside the grammar, and its counts decide
      every bound exactly, even when the exponent saturates. */
  method DecimalDigits(text: string) returns (r: Option<Digits>)
    requires |text| <= SIZE_MAX
    ensures r.Some? <==> Parse(text).Some?
    ensures r.Some? ==> ExactUpTo(r.value.whole, WholeDigits(Parse(text).value), SIZE_MAX - |text|)
    ensures r.Some? ==> ExactUpTo(r.value.fractional, FractionDigits(Parse(text).value), SIZE_MAX - |text|)
  {
    var trimmed := TrimText(text);
    r := UnsignedDigits(DropSign(trimmed), Negated(trimmed), |text|);
  }

  datatype RangeCheck = NotNumeric | ExceedsPrecision | ExceedsScale | Fits

  /** The check of a character parameter declared DECIMAL(precision, scale). Up to the declared
      precision it passes exactly the literals whose value is representable without loss. */
  method CheckDecimal(text: string, precision: nat, scale: nat) returns (r: RangeCheck)
    requires 0 < precision && |text| + precision + scale <= SIZE_MAX
    ensures r.NotNumeric? <==> Parse(text).None?
    ensures r.Fits? && scale <= precision <==>
            Parse(text).Some? && scale <= precision && Representable(Parse(text).value, precision, scale)
    ensures r.ExceedsPrecision? <==>
            Parse(text).Some? && WholeDigits(Parse(text).value) > Max(0, precision - scale)
    ensures r.ExceedsScale? <==>
            && Parse(text).Some? && WholeDigits(Parse(text).value) <= Max(0, precision - scale)
            && FractionDigits(Parse(text).value) > scale
  {
    var digits := DecimalDigits(text);
    if digits.None? {
      return NotNumeric;
    }
    if scale <= precision {
      DigitsDecideRepresentable(Parse(text).value, precision, scale);
    }
    var available := Max(0, precision - scale) as Size;
    if digits.value.whole > available {
      return ExceedsPrecision;
    }
    if digits.value.fractional > scale as Size {
      return ExceedsScale;
    }
    return Fits;
  }
}
