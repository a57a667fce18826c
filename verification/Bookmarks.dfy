/** Variable bookmarks: 24-byte tokens naming a statement, a result of it and a row. */
module Bookmarks {
  const WORD: nat := 0x1_0000_0000_0000_0000

  function Power(k: nat): (p: nat)
    ensures p > 0
  {
    if k == 0 then 1 else 256 * Power(k - 1)
  }

  lemma PowerOfWord()
    ensures Power(8) == WORD
  {
    assert Power(2) == 65536 && Power(4) == 65536 * 65536 by { assert Power(3) == 256 * Power(2); }
    assert Power(6) == 65536 * Power(4) by { assert Power(5) == 256 * Power(4); }
    assert Power(7) == 256 * Power(6);
  }

  // ---- eight bytes ----------------------------------------------------------------

  function Encode(v: nat, n: nat): (b: seq<nat>)
    ensures |b| == n && forall i :: 0 <= i < n ==> b[i] < 256
  {
    if n == 0 then [] else Encode(v / 256, n - 1) + [v % 256]
  }

  function Decode(b: seq<nat>): nat {
    if b == [] then 0 else Decode(b[..|b| - 1]) * 256 + b[|b| - 1]
  }

  lemma {:induction false} DecodesEncoded(v: nat, n: nat)
    requires v < Power(n)
    ensures Decode(Encode(v, n)) == v
  {
    if n > 0 {
      DecodesEncoded(v / 256, n - 1);
      assert Encode(v, n)[..n - 1] == Encode(v / 256, n - 1);
    }
  }

  lemma {:induction false} EncodesDecoded(b: seq<nat>)
    requires forall i :: 0 <= i < |b| ==> b[i] < 256
    ensures Decode(b) < Power(|b|) && Encode(Decode(b), |b|) == b
  {
    if b != [] {
      var front, last := b[..|b| - 1], b[|b| - 1];
      EncodesDecoded(front);
      assert Decode(b) / 256 == Decode(front) && Decode(b) % 256 == last;
      assert b == front + [last];
    }
  }

  lemma DivideTwice(v: nat, p: nat)
    requires p > 0
    ensures v / (256 * p) == v / 256 / p
  {
    var q, r := v / 256 / p, v / 256 % p;
    assert v == 256 * (v / 256) + v % 256;
    assert v / 256 == p * q + r;
    assert v == 256 * p * q + (256 * r + v % 256);
    assert 256 * r + v % 256 < 256 * p;
    Quotient(v, 256 * p, q, 256 * r + v % 256);
  }

  lemma Quotient(v: nat, d: nat, q: nat, r: nat)
    requires v == d * q + r && r < d
    ensures v / d == q
  {
    assert d * (v / d) <= v < d * (v / d) + d;
    if q < v / d { Multiply(d, q + 1, v / d); }
    if v / d < q { Multiply(d, v / d + 1, q); }
  }

  lemma Multiply(d: nat, a: nat, b: nat)
    requires a <= b
    ensures d * a <= d * b
  {
  }

  /** Byte i is the value shifted right by its distance from the end. */
  lemma {:induction false} EncodeAt(v: nat, n: nat, i: nat)
    requires i < n
    ensures Encode(v, n)[i] == v / Power(n - 1 - i) % 256
  {
    if i < n - 1 {
      EncodeAt(v / 256, n - 1, i);
      DivideTwice(v, Power(n - 2 - i));
    }
  }

  /** Writes a 64-bit value in place, most significant byte first. */
  method WriteInteger(bytes: array<nat>, at: nat, v: nat)
    requires at + 8 <= bytes.Length && v < WORD
    modifies bytes
    ensures bytes[at..at + 8] == Encode(v, 8)
    ensures bytes[..at] == old(bytes[..at]) && bytes[at + 8..] == old(bytes[at + 8..])
  {
    for i := 0 to 8
      invariant forall k :: 0 <= k < i ==> bytes[at + k] == Encode(v, 8)[k]
      invariant bytes[..at] == old(bytes[..at]) && bytes[at + 8..] == old(bytes[at + 8..])
    {
      EncodeAt(v, 8, i);
      bytes[at + i] := v / Power(7 - i) % 256;
    }
  }

  method ReadInteger(bytes: seq<nat>, at: nat) returns (value: nat)
    requires at + 8 <= |bytes| && forall i :: 0 <= i < |bytes| ==> bytes[i] < 256
    ensures value == Decode(bytes[at..at + 8]) && value < WORD
  {
    value := 0;
    for i := 0 to 8
      invariant value == Decode(bytes[at..at + i])
    {
      assert bytes[at..at + i + 1][..i] == bytes[at..at + i];
      value := value * 256 + bytes[at + i];
    }
    EncodesDecoded(bytes[at..at + 8]);
    PowerOfWord();
  }

  // ---- tokens ---------------------------------------------------------------------

  function Token(id: nat, generation: nat, row: nat): (t: seq<nat>)
    ensures |t| == 24 && forall i :: 0 <= i < 24 ==> t[i] < 256
  {
    Encode(id, 8) + Encode(generation, 8) + Encode(row + 1, 8)
  }

  lemma TokenParts(id: nat, generation: nat, row: nat)
    requires id < WORD && generation < WORD && row + 1 < WORD
    ensures var t := Token(id, generation, row);
      Decode(t[..8]) == id && Decode(t[8..16]) == generation && Decode(t[16..24]) == row + 1
  {
    var t := Token(id, generation, row);
    PowerOfWord();
    DecodesEncoded(id, 8);
    DecodesEncoded(generation, 8);
    DecodesEncoded(row + 1, 8);
    assert t[..8] == Encode(id, 8) && t[8..16] == Encode(generation, 8) && t[16..24] == Encode(row + 1, 8);
  }

  /** bookmark_for. */
  method BookmarkFor(id: nat, generation: nat, row: nat) returns (token: seq<nat>)
    requires id < WORD && generation < WORD && row + 1 < WORD
    ensures token == Token(id, generation, row)
  {
    var bytes := new nat[24](_ => 0);
    WriteInteger(bytes, 0, id);
    WriteInteger(bytes, 8, generation);
    assert bytes[0..8] == bytes[..8];
    assert bytes[..8] == Encode(id, 8);
    WriteInteger(bytes, 16, row + 1);
    assert bytes[..16][8..16] == bytes[8..16] && bytes[..16][..8] == bytes[..8];
    token := bytes[..];
    assert token == bytes[..8] + bytes[8..16] + bytes[16..24];
  }
}
