/** Laws between masking a connection string and parsing it. */
module Masking {
  import opened Options
  import opened ConnectionText

  /** What masking turns a segment into. */
  function MaskSegment(segment: Segment): Segment {
    match segment
    case Junk(text) => Junk(text)
    case Pair(key, value) => Pair(key, MaskValue(key, value))
    case Open(key) => Pair(key, STARS)
  }

  lemma StarsAreAValue()
    ensures Sealed(STARS) && Meaning(STARS) == Some(STARS)
  {
    assert STARS[0] == '*' && STARS[1] == '*' && STARS[2] == '*';
    assert SkipSpaces(STARS, 0) == 0;
    assert STARS[0..] == STARS;
    assert forall k :: 0 <= k < |STARS| ==> STARS[k] == '*';
    assert Find(STARS, ';', 0) == 3;
    assert TrimFront(STARS) == STARS && TrimBack(STARS) == STARS;
  }

  function Text(m: Segment): string {
    match m case Junk(text) => text case Pair(key, value) => key + "=" + value case Open(key) => key
  }

  /** A segment that scanning can produce on its own. */
  predicate Whole(m: Segment) {
    match m
    case Junk(text) => Plain(text)
    case Pair(key, value) => Plain(key) && Sealed(value)
    case Open(_) => false
  }

  lemma TextScans(m: Segment, more: bool, rest: string)
    requires Whole(m) && (!more ==> rest == "" && m != Junk(""))
    ensures var s := Text(m) + Separator(more) + rest; s != "" && Scan(s) == Scanned(m, more, rest)
  {
    hide Scan, Plain, Sealed;
    var tail := Separator(more) + rest;
    assert Text(m) + Separator(more) + rest == Text(m) + tail;
    assert more ==> tail[1..] == rest;
    if m.Junk? { ScanJunk(m.text, tail); } else { ScanPair(m.key, m.value, tail); }
  }

  lemma MaskIsWhole(s: string)
    requires s != ""
    ensures Whole(MaskSegment(Scan(s).segment)) && Shown(Scan(s).segment) == Text(MaskSegment(Scan(s).segment))
    ensures !Scan(s).more ==> Scan(s).rest == "" && Scan(s).segment != Junk("")
  {
    hide Scan, Plain, Sealed, Secret;
    ScanForms(s);
    StarsAreAValue();
  }

  /** The masked string scans like the original, one segment after the other. */
  lemma MaskScans(s: string)
    requires s != ""
    ensures Mask(s) != ""
    ensures Scan(Mask(s)) == Scanned(MaskSegment(Scan(s).segment), Scan(s).more, Mask(Scan(s).rest))
  {
    hide Scan, Whole, MaskSegment, Shown, Text;
    MaskIsWhole(s);
    var r := Scan(s);
    assert MaskSegment(r.segment) != Junk("") || r.segment == Junk("") by { JunkStays(r.segment); }
    TextScans(MaskSegment(r.segment), r.more, Mask(r.rest));
  }

  lemma JunkStays(m: Segment)
    ensures MaskSegment(m) == Junk("") ==> m == Junk("")
  {
  }

  /** Masking twice is masking once, on every string. */
  lemma {:induction false} MaskIsIdempotent(s: string)
    ensures Mask(Mask(s)) == Mask(s)
    decreases |s|
  {
    if s != "" {
      hide Scan, Secret;
      MaskScans(s);
      MaskIsIdempotent(Scan(s).rest);
    }
  }

  lemma MaskEntriesPrepend(key: string, v: string, es: seq<Entry>)
    ensures MaskEntries(Entries(key, v) + es) ==
      Entries(key, if Secret(Key(key)) then STARS else v) + MaskEntries(es)
  {
    hide Secret;
    if Key(key) != "" {
      assert (Entries(key, v) + es)[1..] == es;
    } else {
      assert Entries(key, v) + es == es;
    }
  }

  /** Parsing the masked string gives the same entries with exactly the secret values starred. */
  lemma {:induction false} MaskCommutesWithParse(s: string)
    requires Parse(s).Some?
    ensures Parse(Mask(s)) == Some(MaskEntries(Parse(s).value))
    decreases |s|
  {
    if s != "" {
      hide Scan, Secret, Meaning, Key;
      var r := Scan(s);
      MaskScans(s);
      MaskCommutesWithParse(r.rest);
      if r.segment.Pair? {
        StarsAreAValue();
        MaskEntriesPrepend(r.segment.key, Meaning(r.segment.value).value, Parse(r.rest).value);
      }
    }
  }

  lemma NulInParts(s: string, r: Scanned)
    requires '\0' !in s && WellScanned(s, r)
    ensures '\0' !in r.rest && '\0' !in Shown(r.segment)
  {
    hide Plain, Sealed, Secret;
    assert !r.segment.Open? ==> forall k :: 0 <= k < |r.rest| ==> s[|s| - |r.rest| + k] == r.rest[k];
  }

  lemma {:induction false} MaskAddsNoNul(s: string)
    requires '\0' !in s
    ensures '\0' !in Mask(s)
    decreases |s|
  {
    if s != "" {
      hide Scan, Shown, WellScanned;
      ScanForms(s);
      var r := Scan(s);
      NulInParts(s, r);
      MaskAddsNoNul(r.rest);
    }
  }

  /** For every accepted string, the masked one is accepted with the same keys in the same order. */
  lemma MaskedIsAccepted(s: string)
    requires Accepted(s).Some?
    ensures Accepted(Mask(s)) == Some(MaskEntries(Accepted(s).value))
  {
    MaskAddsNoNul(s);
    MaskCommutesWithParse(s);
  }

  /** So the parameters are the same, first wins, with exactly the secret ones starred. */
  lemma {:induction false} MaskedParameters(es: seq<Entry>)
    ensures FirstWins(MaskEntries(es)) ==
      map k | k in FirstWins(es) :: if Secret(k) then STARS else FirstWins(es)[k]
  {
    if es != [] {
      hide Secret;
      MaskedParameters(es[1..]);
      assert MaskEntries(es)[1..] == MaskEntries(es[1..]);
    }
  }

  // ---- rejection ------------------------------------------------------------------

  /** The masker reaches its unterminated case. */
  predicate Unterminated(s: string)
    decreases |s|
  {
    s != "" && (Scan(s).segment.Open? || Unterminated(Scan(s).rest))
  }

  /** Some pair has text after its closing brace. */
  predicate StrayText(s: string)
    decreases |s|
  {
    s != "" && ((Scan(s).segment.Pair? && Meaning(Scan(s).segment.value).None?) || StrayText(Scan(s).rest))
  }

  /** The parser rejects exactly the strings with an unterminated brace or stray text, so the masker
      gives up on the rest of a string only when the parser rejects it. */
  lemma {:induction false} RejectedIff(s: string)
    ensures Parse(s).None? <==> Unterminated(s) || StrayText(s)
    decreases |s|
  {
    if s != "" {
      hide Scan, Meaning;
      RejectedIff(Scan(s).rest);
      ScanForms(s);
    }
  }

  // ---- secrecy --------------------------------------------------------------------

  /** Two strings with the same segments, up to the values of secret keys. */
  predicate SameButSecrets(s: string, t: string)
    decreases |s|
  {
    if s == "" || t == "" then s == t
    else
      var a, b := Scan(s), Scan(t);
      && a.more == b.more && SameButSecrets(a.rest, b.rest)
      && match (a.segment, b.segment)
         case (Pair(k, v), Pair(l, w)) => k == l && (v == w || Secret(Key(k)))
         case (Open(k), Open(l)) => k == l
         case (Junk(x), Junk(y)) => x == y
         case _ => false
  }

  /** Such strings look the same once masked. */
  lemma {:induction false} MaskHidesSecrets(s: string, t: string)
    requires SameButSecrets(s, t)
    ensures Mask(s) == Mask(t)
    decreases |s|
  {
    if s != "" && t != "" {
      hide Scan, Secret;
      MaskHidesSecrets(Scan(s).rest, Scan(t).rest);
    }
  }
}
