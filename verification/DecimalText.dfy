/** The numeric literals of the driver: grammar, parse and rational value. */
module DecimalText {
  import opened Options

  /** Blank characters of the C locale. */
  predicate IsBlank(c: char) {
    c == ' ' || c == '\t' || c == '\n' || c == '\r' || c == 11 as char || c == 12 as char
  }

  predicate IsDigit(c: char) {
    '0' <= c <= '9'
  }

  predicate IsSign(c: char) {
    c == '+' || c == '-'
  }

  predicate IsExponentMark(c: char) {
    c == 'e' || c == 'E'
  }

  function DigitValue(c: char): (v: nat)
    requires IsDigit(c)
    ensures v <= 9
  {
    c as nat - '0' as nat
  }

  ghost predicate AllBlank(s: string) {
    forall i :: 0 <= i < |s| ==> IsBlank(s[i])
  }

  ghost predicate AllDigits(s: string) {
    forall i :: 0 <= i < |s| ==> IsDigit(s[i])
  }

  function NatOf(digits: string): nat
    requires AllDigits(digits)
  {
    if digits == [] then 0
    else 10 * NatOf(digits[..|digits| - 1]) + DigitValue(digits[|digits| - 1])
  }

  /** Mantissa digits `whole`.`fraction` and a signed power of ten. */
  datatype Literal = Literal(negative: bool, whole: string, fraction: string, exponent: int)

  ghost predicate ValidLiteral(l: Literal) {
    AllDigits(l.whole) && AllDigits(l.fraction) && l.whole + l.fraction != []
  }

  function Mantissa(l: Literal): string {
    l.whole + l.fraction
  }

  /** The value is (-1)^negative * NatOf(Mantissa) * 10^Scale. */
  function Scale(l: Literal): int {
    l.exponent - |l.fraction|
  }

  // ---- parse ----------------------------------------------------------------------

  function DigitRun(s: string): (n: nat)
    ensures n <= |s|
    ensures AllDigits(s[..n])
    ensures n < |s| ==> !IsDigit(s[n])
  {
    if s == [] || !IsDigit(s[0]) then 0 else 1 + DigitRun(s[1..])
  }

  function TrimFront(s: string): (r: string)
    ensures |r| <= |s|
    ensures r != [] ==> !IsBlank(r[0])
    ensures AllBlank(s[..|s| - |r|]) && r == s[|s| - |r|..]
  {
    if s != [] && IsBlank(s[0]) then TrimFront(s[1..]) else s
  }

  function TrimBack(s: string): (r: string)
    ensures |r| <= |s| && r == s[..|r|]
    ensures r != [] ==> !IsBlank(r[|r| - 1])
    ensures AllBlank(s[|r|..])
  {
    if s != [] && IsBlank(s[|s| - 1]) then TrimBack(s[..|s| - 1]) else s
  }

  function Trim(s: string): string {
    TrimBack(TrimFront(s))
  }

  function DropSign(s: string): string {
    if s != [] && IsSign(s[0]) then s[1..] else s
  }

  predicate Negated(s: string) {
    s != [] && s[0] == '-'
  }

  /** Text after the whole digits: the fraction digits and what follows them. */
  function SplitFraction(s: string): (r: (string, string))
    ensures AllDigits(r.0)
    ensures |r.0| + |r.1| <= |s|
  {
    if s != [] && s[0] == '.' then
      var n := DigitRun(s[1..]);
      (s[1..][..n], s[1..][n..])
    else ("", s)
  }

  function Signed(negative: bool, n: int): int {
    if negative then -n else n
  }

  function ParseExponent(s: string): Option<int> {
    if s == [] then Some(0)
    else if !IsExponentMark(s[0]) then None
    else
      var digits := DropSign(s[1..]);
      if digits == [] || DigitRun(digits) != |digits| then None
      else
        assert digits[..|digits|] == digits;
        Some(Signed(Negated(s[1..]), NatOf(digits)))
  }

  /** Text without blanks or sign. */
  function ParseUnsigned(u: string, negative: bool): (r: Option<Literal>)
    ensures r.Some? ==> ValidLiteral(r.value)
  {
    var n := DigitRun(u);
    var f := SplitFraction(u[n..]);
    if u[..n] + f.0 == [] then None
    else match ParseExponent(f.1)
      case None => None
      case Some(e) => Some(Literal(negative, u[..n], f.0, e))
  }

  function Parse(text: string): (r: Option<Literal>)
    ensures r.Some? ==> ValidLiteral(r.value)
  {
    var t := Trim(text);
    ParseUnsigned(DropSign(t), Negated(t))
  }

  // ---- grammar --------------------------------------------------------------------

  /** A spelling of a literal, part by part. */
  datatype Spelling = Spelling(
    lead: string, sign: string, whole: string, point: bool, fraction: string,
    mark: string, markSign: string, power: string, trail: string)

  ghost predicate WellFormed(p: Spelling) {
    && AllBlank(p.lead) && AllBlank(p.trail)
    && SignText(p.sign) && SignText(p.markSign)
    && AllDigits(p.whole) && AllDigits(p.fraction) && AllDigits(p.power)
    && p.whole + p.fraction != []
    && (!p.point ==> p.fraction == [])
    && (if p.mark == [] then p.markSign == [] && p.power == []
        else |p.mark| == 1 && IsExponentMark(p.mark[0]) && p.power != [])
  }

  predicate SignText(s: string) {
    s == [] || (|s| == 1 && IsSign(s[0]))
  }

  function Tail(p: Spelling): string {
    p.mark + p.markSign + p.power
  }

  function FractionText(p: Spelling): string {
    if p.point then "." + p.fraction else ""
  }

  function Unsigned(p: Spelling): string {
    p.whole + (FractionText(p) + Tail(p))
  }

  function Core(p: Spelling): string {
    p.sign + Unsigned(p)
  }

  function Text(p: Spelling): string {
    p.lead + Core(p) + p.trail
  }

  function Meaning(p: Spelling): Literal
    requires WellFormed(p)
  {
    Literal(Negated(p.sign), p.whole, p.fraction, Signed(Negated(p.markSign), NatOf(p.power)))
  }

  lemma {:induction false} DigitRunStops(a: string, b: string)
    requires AllDigits(a) && (b == [] || !IsDigit(b[0]))
    ensures DigitRun(a + b) == |a|
  {
    if a == [] {
      assert a + b == b;
    } else {
      assert (a + b)[1..] == a[1..] + b;
      DigitRunStops(a[1..], b);
    }
  }

  lemma {:induction false} TrimFrontStops(lead: string, s: string)
    requires AllBlank(lead) && s != [] && !IsBlank(s[0])
    ensures TrimFront(lead + s) == s
  {
    if lead == [] {
      assert lead + s == s;
    } else {
      assert (lead + s)[1..] == lead[1..] + s;
      TrimFrontStops(lead[1..], s);
    }
  }

  lemma {:induction false} TrimBackStops(s: string, trail: string)
    requires AllBlank(trail) && s != [] && !IsBlank(s[|s| - 1])
    ensures TrimBack(s + trail) == s
  {
    if trail == [] {
      assert s + trail == s;
    } else {
      assert (s + trail)[..|s + trail| - 1] == s + trail[..|trail| - 1];
      TrimBackStops(s, trail[..|trail| - 1]);
    }
  }

  lemma CoreEnds(p: Spelling)
    requires WellFormed(p)
    ensures Core(p) != [] && !IsBlank(Core(p)[0]) && !IsBlank(Core(p)[|Core(p)| - 1])
  {
    var c := Core(p);
    if p.mark != [] {
      assert c[|c| - 1] == p.power[|p.power| - 1];
    } else if p.point {
      assert Tail(p) == [];
      assert c[|c| - 1] == ("." + p.fraction)[|p.fraction|];
    } else {
      assert Tail(p) == [] && FractionText(p) == [];
      assert c[|c| - 1] == p.whole[|p.whole| - 1];
    }
    if p.sign != [] {
      assert c[0] == p.sign[0];
    } else if p.whole != [] {
      assert c[0] == p.whole[0];
    } else {
      assert p.point;
      assert c[0] == ("." + p.fraction)[0];
    }
  }

  lemma ExponentRead(p: Spelling)
    requires WellFormed(p)
    ensures ParseExponent(Tail(p)) == Some(Meaning(p).exponent)
  {
    hide DigitRun;
    if p.mark != [] {
      var t := Tail(p);
      assert t[0] == p.mark[0];
      assert t[1..] == p.markSign + p.power;
      if p.markSign != [] {
        assert (p.markSign + p.power)[1..] == p.power;
      } else {
        assert p.markSign + p.power == p.power;
      }
      assert DropSign(t[1..]) == p.power;
      assert p.power + [] == p.power;
      DigitRunStops(p.power, []);
    } else {
      assert Tail(p) == [];
    }
  }

  lemma FractionRead(p: Spelling)
    requires WellFormed(p)
    ensures SplitFraction(FractionText(p) + Tail(p)) == (p.fraction, Tail(p))
  {
    var s := FractionText(p) + Tail(p);
    if p.point {
      assert s[1..] == p.fraction + Tail(p);
      DigitRunStops(p.fraction, Tail(p));
      assert s[1..][..|p.fraction|] == p.fraction;
      assert s[1..][|p.fraction|..] == Tail(p);
    } else {
      assert s == Tail(p);
    }
  }

  lemma UnsignedRead(p: Spelling)
    requires WellFormed(p)
    ensures ParseUnsigned(Unsigned(p), Negated(p.sign)) == Some(Meaning(p))
  {
    var u, rest := Unsigned(p), FractionText(p) + Tail(p);
    DigitRunStops(p.whole, rest);
    assert u[..|p.whole|] == p.whole && u[|p.whole|..] == rest;
    FractionRead(p);
    ExponentRead(p);
  }

  lemma SignRead(p: Spelling)
    requires WellFormed(p)
    ensures DropSign(Core(p)) == Unsigned(p) && Negated(Core(p)) == Negated(p.sign)
  {
    if p.sign != [] {
      assert Core(p)[1..] == Unsigned(p);
    } else {
      assert Core(p) == Unsigned(p);
      CoreEnds(p);
    }
  }

  /** Every spelling is read as its meaning. */
  lemma ParseReadsSpelling(p: Spelling)
    requires WellFormed(p)
    ensures Parse(Text(p)) == Some(Meaning(p))
  {
    assert Trim(Text(p)) == Core(p) by {
      var c := Core(p);
      CoreEnds(p);
      assert Text(p) == p.lead + (c + p.trail);
      assert (c + p.trail)[0] == c[0];
      TrimFrontStops(p.lead, c + p.trail);
      TrimBackStops(c, p.trail);
    }
    SignRead(p);
    UnsignedRead(p);
  }

  lemma TailSpelling(tail: string) returns (mark: string, markSign: string, power: string)
    requires ParseExponent(tail).Some?
    ensures mark + markSign + power == tail && AllDigits(power) && SignText(markSign)
    ensures if mark == [] then markSign == [] && power == []
            else |mark| == 1 && IsExponentMark(mark[0]) && power != []
  {
    if tail == [] {
      return "", "", "";
    }
    var digits := DropSign(tail[1..]);
    assert digits[..|digits|] == digits;
    mark, power := tail[..1], digits;
    markSign := if tail[1..] != [] && IsSign(tail[1]) then tail[1..2] else "";
    assert tail[1..] == markSign + digits;
  }

  lemma FractionSplit(v: string)
    ensures var f := SplitFraction(v);
      v == (if v != [] && v[0] == '.' then "." + f.0 else "") + f.1
      && (v == [] || v[0] != '.' ==> f.0 == "")
  {
  }

  /** The spelling of an accepted text without blanks or sign. */
  lemma UnsignedSpelling(u: string, negative: bool) returns (p: Spelling)
    requires ParseUnsigned(u, negative).Some?
    ensures WellFormed(p) && Unsigned(p) == u
  {
    hide DigitRun, SplitFraction, ParseExponent;
    var n := DigitRun(u);
    var v := u[n..];
    var f := SplitFraction(v);
    var mark, markSign, power := TailSpelling(f.1);
    p := Spelling("", "", u[..n], v != [] && v[0] == '.', f.0, mark, markSign, power, "");
    FractionSplit(v);
    assert Unsigned(p) == u by {
      assert Tail(p) == f.1;
      assert FractionText(p) + Tail(p) == v;
      assert u[..n] + v == u;
    }
    assert p.whole + p.fraction != [];
  }

  lemma TrimSplit(text: string) returns (lead: string, trail: string)
    ensures AllBlank(lead) && AllBlank(trail) && lead + Trim(text) + trail == text
  {
    hide TrimFront, TrimBack;
    var front := TrimFront(text);
    var t := TrimBack(front);
    lead, trail := text[..|text| - |front|], front[|t|..];
    assert t + trail == front;
    assert lead + t + trail == lead + (t + trail);
  }

  lemma SignSplit(t: string) returns (sign: string)
    ensures SignText(sign) && sign + DropSign(t) == t
  {
    sign := if t != [] && IsSign(t[0]) then t[..1] else "";
  }

  /** Every accepted text has a spelling, so the parser accepts exactly the grammar. */
  lemma ParseSound(text: string) returns (p: Spelling)
    requires Parse(text).Some?
    ensures WellFormed(p) && Text(p) == text && Meaning(p) == Parse(text).value
  {
    var t := Trim(text);
    var q := UnsignedSpelling(DropSign(t), Negated(t));
    var sign := SignSplit(t);
    var lead, trail := TrimSplit(text);
    p := Spelling(lead, sign, q.whole, q.point, q.fraction, q.mark, q.markSign, q.power, trail);
    assert Unsigned(p) == Unsigned(q) == DropSign(t);
    assert Core(p) == t;
    ParseReadsSpelling(p);
  }
}
