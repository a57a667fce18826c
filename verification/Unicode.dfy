/** UTF-8 (section 3 of RFC 3629) to UTF-16 (section 2.1 of RFC 2781), as the driver decodes
    result cells. SQLWCHAR is two bytes wide. */
module Unicode {
  import opened Options

  newtype Byte = x: int | 0 <= x < 0x100
  newtype Unit = x: int | 0 <= x < 0x1_0000

  /** A decoded scalar and the number of bytes it takes. */
  datatype Decoded = Decoded(point: int, width: nat)

  predicate IsScalar(p: int) {
    0 <= p <= 0x10FFFF && !(0xD800 <= p <= 0xDFFF)
  }

  predicate IsContinuation(b: Byte) {
    0x80 <= b <= 0xBF
  }

  predicate IsHigh(u: Unit) {
    0xD800 <= u <= 0xDBFF
  }

  predicate IsLow(u: Unit) {
    0xDC00 <= u <= 0xDFFF
  }

  // ---- the two encodings, by their definitions ------------------------------------

  function Utf8(p: int): (s: seq<Byte>)
    requires IsScalar(p)
    ensures 1 <= |s| <= 4
  {
    if p < 0x80 then [p as Byte]
    else if p < 0x800 then [(0xC0 + p / 0x40) as Byte, (0x80 + p % 0x40) as Byte]
    else if p < 0x10000 then
      [(0xE0 + p / 0x1000) as Byte, (0x80 + p / 0x40 % 0x40) as Byte, (0x80 + p % 0x40) as Byte]
    else
      [(0xF0 + p / 0x40000) as Byte, (0x80 + p / 0x1000 % 0x40) as Byte,
       (0x80 + p / 0x40 % 0x40) as Byte, (0x80 + p % 0x40) as Byte]
  }

  function Utf16(p: int): (s: seq<Unit>)
    requires IsScalar(p)
    ensures |s| == (if p > 0xFFFF then 2 else 1)
    ensures |s| == 2 ==> IsHigh(s[0]) && IsLow(s[1])
    ensures |s| == 1 ==> !IsHigh(s[0]) && !IsLow(s[0])
  {
    if p > 0xFFFF then
      [(0xD800 + (p - 0x10000) / 0x400) as Unit, (0xDC00 + (p - 0x10000) % 0x400) as Unit]
    else [p as Unit]
  }

  /** The scalar that UTF-16 units stand for, by section 2.2 of RFC 2781. */
  function FromUtf16(s: seq<Unit>): (p: int)
    requires |s| == 1 || |s| == 2
  {
    if |s| == 1 then s[0] as int
    else 0x10000 + (s[0] as int - 0xD800) * 0x400 + (s[1] as int - 0xDC00)
  }

  /** The UTF-16 form of a scalar decodes to it. */
  lemma Utf16RoundTrip(p: int)
    requires IsScalar(p)
    ensures FromUtf16(Utf16(p)) == p
  {
    if p > 0xFFFF {
      var q := p - 0x10000;
      assert q == q / 0x400 * 0x400 + q % 0x400;
    }
  }

  /** The encodings that the standards give as examples: sections 7 of RFC 3629 and 5 of RFC 2781. */
  lemma StandardExamples()
    ensures Utf8(0x2262) == [0xE2, 0x89, 0xA2] && Utf8(0x0391) == [0xCE, 0x91] && Utf8(0xD55C) == [0xED, 0x95, 0x9C]
    ensures Utf8(0x233B4) == [0xF0, 0xA3, 0x8E, 0xB4]
    ensures Utf16(0x12345) == [0xD808, 0xDF45]
  {
  }

  // ---- the driver's decoder -------------------------------------------------------

  /** Number of continuation bytes, payload of the lead byte and smallest legal scalar. */
  function Lead(b: Byte): Option<(nat, int, int)> {
    if b < 0x80 then Some((0, b as int, 0))
    else if 0xC0 <= b < 0xE0 then Some((1, b as int - 0xC0, 0x80))
    else if 0xE0 <= b < 0xF0 then Some((2, b as int - 0xE0, 0x800))
    else if 0xF0 <= b < 0xF8 then Some((3, b as int - 0xF0, 0x10000))
    else None
  }

  function Payload(start: int, tail: seq<Byte>): int {
    if tail == [] then start
    else Payload(start, tail[..|tail| - 1]) * 0x40 + (tail[|tail| - 1] as int - 0x80)
  }

  /** The scalar at the front of s. */
  function Decode(s: seq<Byte>): (r: Option<Decoded>)
    requires s != []
    ensures r.Some? ==> IsScalar(r.value.point) && 1 <= r.value.width <= |s|
  {
    match Lead(s[0])
    case None => None
    case Some((count, start, minimum)) =>
      if count > |s| - 1 then None
      else if exists i :: 1 <= i <= count && !IsContinuation(s[i]) then None
      else
        var point := Payload(start, s[1..count + 1]);
        if point < minimum || !IsScalar(point) then None else Some(Decoded(point, count + 1))
  }

  lemma PayloadOf(start: int, tail: seq<Byte>)
    requires |tail| <= 3
    ensures |tail| == 0 ==> Payload(start, tail) == start
    ensures |tail| == 1 ==> Payload(start, tail) == start * 0x40 + (tail[0] as int - 0x80)
    ensures |tail| == 2 ==>
      Payload(start, tail) == (start * 0x40 + (tail[0] as int - 0x80)) * 0x40 + (tail[1] as int - 0x80)
    ensures |tail| == 3 ==>
      Payload(start, tail) == ((start * 0x40 + (tail[0] as int - 0x80)) * 0x40 + (tail[1] as int - 0x80)) * 0x40
                              + (tail[2] as int - 0x80)
  {
    if |tail| >= 2 {
      assert tail[..|tail| - 1][..|tail| - 2] == tail[..|tail| - 2];
      if |tail| == 3 {
        assert tail[..1][..0] == [];
      }
    }
  }

  /** `next_utf8_code_point` with its loop. */
  method NextCodePoint(input: seq<Byte>, offset: nat) returns (r: Option<int>, next: nat)
    ensures offset >= |input| ==> r.None?
    ensures offset < |input| ==>
      match Decode(input[offset..])
      case None => r.None?
      case Some(d) => r == Some(d.point) && next == offset + d.width
  {
    next := offset;
    if offset >= |input| {
      return None, next;
    }
    var s := input[offset..];
    var first := input[offset];
    next := next + 1;
    var lead := Lead(first);
    if lead.None? {
      return None, next;
    }
    var (count, start, minimum) := lead.value;
    if count > |input| - next {
      return None, next;
    }
    var point := start;
    for i := 0 to count
      invariant next == offset + 1 + i
      invariant forall j :: 1 <= j <= i ==> IsContinuation(s[j])
      invariant point == Payload(start, s[1..i + 1])
    {
      var byte := input[next];
      assert s[i + 1] == byte;
      next := next + 1;
      if !IsContinuation(byte) {
        return None, next;
      }
      assert s[1..i + 2][..i] == s[1..i + 1];
      point := point * 0x40 + (byte as int - 0x80);
    }
    if point < minimum || !IsScalar(point) {
      return None, next;
    }
    return Some(point), next;
  }

  /** Base-64 digits of a number, and back. */
  lemma Split64(p: int)
    requires p >= 0
    ensures p == p / 0x40 * 0x40 + p % 0x40
    ensures p / 0x1000 == p / 0x40 / 0x40 && p / 0x40000 == p / 0x1000 / 0x40
  {
  }

  lemma Join64(a: int, b: int)
    requires 0 <= b < 0x40
    ensures (a * 0x40 + b) / 0x40 == a && (a * 0x40 + b) % 0x40 == b
  {
  }

  lemma PayloadOfEncoding(p: int)
    requires IsScalar(p)
    ensures var u := Utf8(p); var l := Lead(u[0]);
      && l.Some? && l.value.0 == |u| - 1 && l.value.2 <= p
      && Payload(l.value.1, u[1..]) == p
  {
    var u := Utf8(p);
    PayloadOf(Lead(u[0]).value.1, u[1..]);
    Split64(p);
    Split64(p / 0x40);
    Split64(p / 0x1000);
  }

  /** Decoding inverts UTF-8 ... */
  lemma DecodesEncoding(p: int, rest: seq<Byte>)
    requires IsScalar(p)
    ensures Decode(Utf8(p) + rest) == Some(Decoded(p, |Utf8(p)|))
  {
    var u := Utf8(p);
    var s := u + rest;
    PayloadOfEncoding(p);
    assert s[0] == u[0];
    assert forall i :: 1 <= i < |u| ==> s[i] == u[i] && IsContinuation(u[i]);
    assert s[1..|u|] == u[1..];
  }

  lemma TwoByteForm(a: int, b: int)
    requires 0 <= a < 0x20 && 0 <= b < 0x40 && a * 0x40 + b >= 0x80
    ensures Utf8(a * 0x40 + b) == [(0xC0 + a) as Byte, (0x80 + b) as Byte]
  {
  }

  lemma ThreeByteForm(a: int, b: int, c: int)
    requires 0 <= a < 0x10 && 0 <= b < 0x40 && 0 <= c < 0x40
    requires (a * 0x40 + b) * 0x40 + c >= 0x800 && IsScalar((a * 0x40 + b) * 0x40 + c)
    ensures Utf8((a * 0x40 + b) * 0x40 + c) == [(0xE0 + a) as Byte, (0x80 + b) as Byte, (0x80 + c) as Byte]
  {
    Join64(a * 0x40 + b, c);
  }

  lemma FourByteForm(a: int, b: int, c: int, d: int)
    requires 0 <= a < 8 && 0 <= b < 0x40 && 0 <= c < 0x40 && 0 <= d < 0x40
    requires 0x10000 <= ((a * 0x40 + b) * 0x40 + c) * 0x40 + d <= 0x10FFFF
    ensures Utf8(((a * 0x40 + b) * 0x40 + c) * 0x40 + d)
         == [(0xF0 + a) as Byte, (0x80 + b) as Byte, (0x80 + c) as Byte, (0x80 + d) as Byte]
  {
    Join64((a * 0x40 + b) * 0x40 + c, d);
    Join64(a * 0x40 + b, c);
    Join64(a, b);
    Split64(((a * 0x40 + b) * 0x40 + c) * 0x40 + d);
  }

  /** ... and accepts nothing but UTF-8: no overlong form, surrogate or stray byte. */
  lemma DecodesOnlyEncodings(s: seq<Byte>)
    requires s != [] && Decode(s).Some?
    ensures var d := Decode(s).value; s[..d.width] == Utf8(d.point)
  {
    var d := Decode(s).value;
    var (count, a, minimum) := Lead(s[0]).value;
    var tail := s[1..count + 1];
    assert forall i :: 0 <= i < count ==> tail[i] == s[i + 1] && IsContinuation(s[i + 1]);
    PayloadOf(a, tail);
    var form := [s[0]] + tail;
    assert s[..d.width] == form;
    if count == 1 {
      TwoByteForm(a, tail[0] as int - 0x80);
      assert form == [s[0], tail[0]];
    } else if count == 2 {
      ThreeByteForm(a, tail[0] as int - 0x80, tail[1] as int - 0x80);
      assert form == [s[0], tail[0], tail[1]];
    } else if count == 3 {
      FourByteForm(a, tail[0] as int - 0x80, tail[1] as int - 0x80, tail[2] as int - 0x80);
      assert form == [s[0], tail[0], tail[1], tail[2]];
    }
  }

  // ---- whole cells ----------------------------------------------------------------

  /** `utf8_to_wide`: None iff the bytes are not UTF-8. */
  function Wide(s: seq<Byte>): (w: Option<seq<Unit>>)
    ensures w.Some? ==> |w.value| <= |s|
    decreases |s|
  {
    if s == [] then Some([])
    else match Decode(s)
      case None => None
      case Some(d) =>
        DecodesOnlyEncodings(s);
        match Wide(s[d.width..])
        case None => None
        case Some(w) => Some(Utf16(d.point) + w)
  }

  function EncodeAll8(points: seq<int>): seq<Byte>
    requires forall i :: 0 <= i < |points| ==> IsScalar(points[i])
  {
    if points == [] then [] else Utf8(points[0]) + EncodeAll8(points[1..])
  }

  function EncodeAll16(points: seq<int>): seq<Unit>
    requires forall i :: 0 <= i < |points| ==> IsScalar(points[i])
  {
    if points == [] then [] else Utf16(points[0]) + EncodeAll16(points[1..])
  }

  /** Converting the UTF-8 form of any text gives its UTF-16 form. */
  lemma {:induction false} WideConverts(points: seq<int>)
    requires forall i :: 0 <= i < |points| ==> IsScalar(points[i])
    ensures Wide(EncodeAll8(points)) == Some(EncodeAll16(points))
  {
    if points != [] {
      var s, u := EncodeAll8(points), Utf8(points[0]);
      DecodesEncoding(points[0], EncodeAll8(points[1..]));
      assert s[|u|..] == EncodeAll8(points[1..]);
      WideConverts(points[1..]);
    }
  }

  /** Surrogates come in pairs: a high unit is always followed by its low unit. */
  ghost predicate Paired(w: seq<Unit>) {
    && (forall i :: 0 <= i < |w| && IsHigh(w[i]) ==> i + 1 < |w| && IsLow(w[i + 1]))
    && (forall i :: 0 <= i < |w| && IsLow(w[i]) ==> 0 < i && IsHigh(w[i - 1]))
  }

  lemma {:induction false} WideIsPaired(s: seq<Byte>)
    requires Wide(s).Some?
    ensures Paired(Wide(s).value)
    decreases |s|
  {
    if s != [] {
      var d := Decode(s).value;
      WideIsPaired(s[d.width..]);
      var head, tail := Utf16(d.point), Wide(s[d.width..]).value;
      var w := head + tail;
      forall i | 0 <= i < |w|
        ensures IsHigh(w[i]) ==> i + 1 < |w| && IsLow(w[i + 1])
        ensures IsLow(w[i]) ==> 0 < i && IsHigh(w[i - 1])
      {
        if i >= |head| {
          assert w[i] == tail[i - |head|];
        }
      }
    }
  }
}
