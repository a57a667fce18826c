/** What an application may write and rely on: every spelling of a list of parameters is read back as that
    list, keys in any letter case, and secret keys are recognised in any letter case. */
module ConnectionLaws {
  import opened Options
  import opened ConnectionText

  // ---- letter case and blanks -------------------------------------------------------

  /** A character in either letter case of a capital. */
  predicate IsLetter(c: char, capital: char) {
    c == capital || ('A' <= capital <= 'Z' && c as int == capital as int + 32)
  }

  predicate SameLetters(s: string, word: string) {
    |s| == |word| && forall i :: 0 <= i < |s| ==> IsLetter(s[i], word[i])
  }

  predicate Capitals(word: string) { forall i :: 0 <= i < |word| ==> 'A' <= word[i] <= 'Z' }

  lemma UpperMeansSameLetters(s: string, word: string)
    requires Capitals(word)
    ensures Upper(s) == word <==> SameLetters(s, word)
  {
    if Upper(s) == word {
      forall i | 0 <= i < |s| ensures IsLetter(s[i], word[i]) { assert Upper(s)[i] == word[i]; }
    }
  }

  /** The characters that trimming removes, and the wider set that may stand before and after a value. */
  predicate IsBlank(c: char) { c in {' ', '\t', '\r', '\n'} }

  predicate IsGap(c: char) { c in {' ', '\t', '\r', '\n', '\U{0B}', '\U{0C}'} }

  lemma CharacterSets(c: char)
    ensures (IsTrimmed(c) <==> IsBlank(c)) && (IsSpace(c) <==> IsGap(c))
  {
  }

  predicate AllTrimmed(s: string) { forall i :: 0 <= i < |s| ==> IsBlank(s[i]) }

  /** A text that neither begins nor ends with a blank. */
  predicate Tight(s: string) { s != "" ==> !IsBlank(s[0]) && !IsBlank(s[|s| - 1]) }

  lemma {:induction false} TrimFrontReads(lead: string, s: string)
    requires AllTrimmed(lead) && (s != "" ==> !IsTrimmed(s[0]))
    ensures TrimFront(lead + s) == s
    decreases |lead|
  {
    if lead == "" { assert lead + s == s; }
    else {
      assert (lead + s)[1..] == lead[1..] + s;
      TrimFrontReads(lead[1..], s);
    }
  }

  lemma {:induction false} TrimBackReads(s: string, trail: string)
    requires AllTrimmed(trail) && (s != "" ==> !IsTrimmed(s[|s| - 1]))
    ensures TrimBack(s + trail) == s
    decreases |trail|
  {
    if trail == "" { assert s + trail == s; }
    else {
      var n := |trail| - 1;
      assert (s + trail)[..|s + trail| - 1] == s + trail[..n];
      TrimBackReads(s, trail[..n]);
    }
  }

  lemma {:induction false} TrimFrontOfBlanks(s: string)
    requires AllTrimmed(s)
    ensures TrimFront(s) == ""
  {
    if s != "" { TrimFrontOfBlanks(s[1..]); }
  }

  /** Blanks around a text are not part of it. */
  lemma TrimReads(lead: string, s: string, trail: string)
    requires AllTrimmed(lead) && AllTrimmed(trail) && Tight(s)
    ensures Trim(lead + s + trail) == s
  {
    if s == "" {
      assert lead + s + trail == lead + trail;
      TrimFrontOfBlanks(lead + trail);
    } else {
      assert lead + s + trail == lead + (s + trail);
      TrimFrontReads(lead, s + trail);
      TrimBackReads(s, trail);
    }
  }

  lemma {:induction false} TrimFrontSplits(s: string)
    ensures var t := TrimFront(s);
      |t| <= |s| && s == s[..|s| - |t|] + t && AllTrimmed(s[..|s| - |t|]) && (t != "" ==> !IsTrimmed(t[0]))
  {
    if s != "" && IsTrimmed(s[0]) {
      TrimFrontSplits(s[1..]);
      var t := TrimFront(s[1..]);
      assert s[..|s| - |t|] == [s[0]] + s[1..][..|s| - 1 - |t|];
    }
  }

  lemma {:induction false} TrimBackSplits(s: string)
    ensures var t := TrimBack(s);
      |t| <= |s| && s == t + s[|t|..] && AllTrimmed(s[|t|..]) && (t != "" ==> !IsTrimmed(t[|t| - 1]))
  {
    if s != "" && IsTrimmed(s[|s| - 1]) {
      TrimBackSplits(s[..|s| - 1]);
      var t := TrimBack(s[..|s| - 1]);
      assert s[|t|..] == s[..|s| - 1][|t|..] + [s[|s| - 1]];
    }
  }

  /** Every text is its trimmed core with blanks around it. */
  lemma TrimSplits(s: string) returns (lead: string, trail: string)
    ensures AllTrimmed(lead) && AllTrimmed(trail) && s == lead + Trim(s) + trail
  {
    TrimFrontSplits(s);
    var t := TrimFront(s);
    TrimBackSplits(t);
    lead, trail := s[..|s| - |t|], t[|TrimBack(t)|..];
  }

  // ---- secret keys ------------------------------------------------------------------

  predicate HoldsAt(s: string, word: string, a: nat) {
    a + |word| <= |s| && SameLetters(s[a..a + |word|], word)
  }

  /** Some part of the text is the word in any letter case. */
  ghost predicate Holds(s: string, word: string) { exists a :: HoldsAt(s, word, a) }

  lemma StartsIff(s: string, word: string)
    requires Capitals(word)
    ensures word <= Upper(s) <==> HoldsAt(s, word, 0)
  {
    if |word| <= |s| {
      assert Upper(s[0..|word|]) == Upper(s)[..|word|];
      UpperMeansSameLetters(s[0..|word|], word);
    }
  }

  lemma {:induction false} HeldIsContained(s: string, word: string, a: nat)
    requires Capitals(word) && HoldsAt(s, word, a)
    ensures Contains(Upper(s), word)
    decreases a
  {
    hide HoldsAt;
    if a == 0 { StartsIff(s, word); }
    else {
      Later(s, word, a);
      assert Upper(s)[1..] == Upper(s[1..]);
      HeldIsContained(s[1..], word, a - 1);
    }
  }

  lemma Later(s: string, word: string, a: nat)
    requires a > 0
    ensures s != "" ==> (HoldsAt(s, word, a) <==> HoldsAt(s[1..], word, a - 1))
    ensures HoldsAt(s, word, a) ==> s != ""
  {
    hide SameLetters;
    if s != "" && a + |word| <= |s| {
      var here, later := s[a..a + |word|], s[1..][a - 1..a - 1 + |word|];
      assert forall k :: 0 <= k < |word| ==> here[k] == later[k];
      assert here == later;
    }
  }

  lemma {:induction false} ContainedIsHeld(s: string, word: string) returns (a: nat)
    requires Capitals(word) && Contains(Upper(s), word)
    ensures HoldsAt(s, word, a)
    decreases |s|
  {
    hide HoldsAt;
    StartsIff(s, word);
    if word <= Upper(s) { return 0; }
    assert Upper(s)[1..] == Upper(s[1..]);
    a := ContainedIsHeld(s[1..], word);
    a := a + 1;
    Later(s, word, a);
  }

  lemma ContainsIff(s: string, word: string)
    requires Capitals(word)
    ensures Contains(Upper(s), word) <==> Holds(s, word)
  {
    hide Contains, HoldsAt;
    if Contains(Upper(s), word) { var a := ContainedIsHeld(s, word); }
    if Holds(s, word) {
      var a: nat :| HoldsAt(s, word, a);
      HeldIsContained(s, word, a);
    }
  }

  /** A key is secret exactly when its trimmed text is PWD or holds PASSWORD, SECRET or TOKEN, in any
      letter case. */
  lemma SecretIff(raw: string)
    ensures var core := Trim(raw);
      Secret(Key(raw)) <==>
        SameLetters(core, "PWD") || Holds(core, "PASSWORD") || Holds(core, "SECRET") || Holds(core, "TOKEN")
  {
    var core := Trim(raw);
    hide Trim, Contains;
    UpperMeansSameLetters(core, "PWD");
    ContainsIff(core, "PASSWORD");
    ContainsIff(core, "SECRET");
    ContainsIff(core, "TOKEN");
  }

  /** The masked text of a string that begins with a pair. */
  lemma MaskOfPair(raw: string, value: string, tail: string)
    requires Plain(raw) && Sealed(value) && Boundary(tail)
    ensures Mask(raw + "=" + value + tail) ==
      raw + "=" + MaskValue(raw, value) + (if tail == "" then "" else ";" + Mask(tail[1..]))
  {
    ScanPair(raw, value, tail);
    hide Scan, MaskValue;
    var s := raw + "=" + value + tail;
    assert s[|raw|] == '=';
    var shown := raw + "=" + MaskValue(raw, value);
    if tail == "" {
      assert Mask("") == "";
      assert shown + "" + "" == shown;
    } else {
      assert shown + ";" + Mask(tail[1..]) == shown + (";" + Mask(tail[1..]));
    }
  }

  /** So is its value hidden: a secret pair shows stars, whatever follows its separator. */
  lemma SecretShowsStars(lead: string, key: string, trail: string, value: string, tail: string)
    requires AllTrimmed(lead) && AllTrimmed(trail) && Tight(key) && Plain(lead + key + trail)
    requires Sealed(value) && Boundary(tail)
    requires SameLetters(key, "PWD") || Holds(key, "PASSWORD") || Holds(key, "SECRET") || Holds(key, "TOKEN")
    ensures var raw := lead + key + trail;
      Mask(raw + "=" + value + tail) == raw + "=" + "***" + (if tail == "" then "" else ";" + Mask(tail[1..]))
  {
    hide Mask, Plain, Sealed, Secret, Key, Trim, Holds, SameLetters;
    var raw := lead + key + trail;
    TrimReads(lead, key, trail);
    SecretIff(raw);
    MaskOfPair(raw, value, tail);
  }

  // ---- spellings --------------------------------------------------------------------

  /** A closing brace inside a braced value is doubled. */
  function Escape(v: string): string {
    if v == "" then "" else (if v[0] == '}' then "}}" else [v[0]]) + Escape(v[1..])
  }

  lemma {:induction false} BracesRead(v: string, rest: string)
    requires rest != "" ==> rest[0] != '}'
    ensures var s := Escape(v) + "}" + rest;
      BraceEnd(s, 0) == Some(|Escape(v)| + 1) && Body(s, 0) == v
    decreases |v|
  {
    var s := Escape(v) + "}" + rest;
    if v != "" {
      var head := if v[0] == '}' then "}}" else [v[0]];
      var t := Escape(v[1..]) + "}" + rest;
      assert s == head + t;
      BracesRead(v[1..], rest);
      BraceAfter(head, t, 0);
      BodyAfter(head, t, 0);
      hide Escape;
      assert v == [v[0]] + v[1..];
      if v[0] == '}' { assert s[0] == '}' && s[1] == '}'; } else { assert s[0] == v[0]; }
    }
  }

  /** How a value may be written: blanks before and after it, braces around it or not. */
  datatype Spelling = Spelling(before: string, value: string, braced: bool, after: string)

  predicate AllGaps(s: string) { forall i :: 0 <= i < |s| ==> IsGap(s[i]) }

  /** Without braces a value is tight, has no separator and does not begin like a braced one. */
  predicate WellSpelled(w: Spelling) {
    && AllGaps(w.before)
    && (if w.braced then AllGaps(w.after)
        else AllTrimmed(w.after) && Tight(w.value) && ';' !in w.value &&
             (w.value != "" ==> w.value[0] != '{' && !IsGap(w.value[0])))
  }

  function Written(w: Spelling): string {
    w.before + (if w.braced then "{" + Escape(w.value) + "}" else w.value) + w.after
  }

  lemma {:induction false} SkipReads(gaps: string, s: string)
    requires AllGaps(gaps) && (s != "" ==> !IsGap(s[0]))
    ensures SkipSpaces(gaps + s, 0) == |gaps|
    decreases |gaps|
  {
    if gaps == "" {
      assert gaps + s == s;
      if s != "" { CharacterSets(s[0]); }
    } else {
      CharacterSets(gaps[0]);
      assert gaps + s == [gaps[0]] + (gaps[1..] + s);
      SkipReads(gaps[1..], s);
      SkipAfter([gaps[0]], gaps[1..] + s, 0);
    }
  }

  lemma {:induction false} GapsHaveNoSeparator(s: string, i: nat)
    requires AllGaps(s) && i <= |s|
    ensures Find(s, ';', i) == |s| && SkipSpaces(s, i) == |s|
    decreases |s| - i
  {
    if i < |s| {
      CharacterSets(s[i]);
      GapsHaveNoSeparator(s, i + 1);
    }
  }

  lemma BlankEnd(head: string, gaps: string)
    requires AllGaps(gaps)
    ensures Find(head + gaps, ';', |head|) == |head + gaps| && SkipSpaces(head + gaps, |head|) == |head + gaps|
  {
    GapsHaveNoSeparator(gaps, 0);
    FindAfter(head, gaps, ';', 0);
    SkipAfter(head, gaps, 0);
  }

  lemma AfterIsNoBrace(w: Spelling)
    requires WellSpelled(w) && w.braced
    ensures w.after != "" ==> w.after[0] != '}'
  {
  }

  /** A braced spelling is one sealed value and means what is between its braces. */
  lemma BracedReads(w: Spelling)
    requires WellSpelled(w) && w.braced
    ensures Sealed(Written(w)) && Meaning(Written(w)) == Some(w.value)
  {
    hide Find, SkipSpaces, BraceEnd, Body, Escape, AllGaps;
    var inner := Escape(w.value) + "}" + w.after;
    var s := Written(w);
    var pre := w.before + "{";
    assert s == w.before + ("{" + inner) && s == pre + inner;
    SkipReads(w.before, "{" + inner);
    AfterIsNoBrace(w);
    BracesRead(w.value, w.after);
    BraceAfter(pre, inner, 0);
    BodyAfter(pre, inner, 0);
    var head := pre + Escape(w.value) + "}";
    assert s == head + w.after;
    BlankEnd(head, w.after);
    assert s[|w.before|] == '{';
  }

  lemma NoSeparator(s: string)
    requires ';' !in s
    ensures forall i :: 0 <= i <= |s| ==> Find(s, ';', i) == |s|
  {
  }

  lemma {:induction false} SkipAllGaps(gaps: string, rest: string)
    requires AllGaps(gaps) && AllTrimmed(rest)
    ensures SkipSpaces(gaps + rest, 0) == |gaps + rest|
  {
    assert AllGaps(gaps + rest);
    GapsHaveNoSeparator(gaps + rest, 0);
  }

  /** A plain spelling is one sealed value and means its text without the blanks around it. */
  lemma PlainReads(w: Spelling)
    requires WellSpelled(w) && !w.braced
    ensures Sealed(Written(w)) && Meaning(Written(w)) == Some(w.value)
  {
    var s := Written(w);
    assert s == w.before + (w.value + w.after) && s == w.before + w.value + w.after;
    NoSeparator(s);
    if w.value == "" {
      assert s == w.before + w.after;
      SkipAllGaps(w.before, w.after);
      assert s[|s|..] == "";
    } else {
      SkipReads(w.before, w.value + w.after);
      hide Find, SkipSpaces;
      assert s[|w.before|] == w.value[0];
      assert s[|w.before|..] == "" + w.value + w.after;
      TrimReads("", w.value, w.after);
    }
  }

  /** One parameter as it may be written. */
  datatype Setting = Setting(lead: string, key: string, trail: string, value: Spelling)

  predicate WellSet(p: Setting) {
    && AllTrimmed(p.lead) && AllTrimmed(p.trail) && p.key != "" && Tight(p.key)
    && Plain(p.key) && WellSpelled(p.value)
  }

  function RawKey(p: Setting): string { p.lead + p.key + p.trail }

  /** Settings separated by semicolons, with or without a last one. */
  function Text(ps: seq<Setting>, closed: bool): string {
    if ps == [] then ""
    else RawKey(ps[0]) + "=" + Written(ps[0].value) +
         (if |ps| == 1 && !closed then "" else ";" + Text(ps[1..], closed))
  }

  function EntriesOf(ps: seq<Setting>): seq<Entry> {
    if ps == [] then [] else [Entry(Upper(ps[0].key), ps[0].value.value)] + EntriesOf(ps[1..])
  }

  lemma RawKeyIsPlain(p: Setting)
    requires WellSet(p)
    ensures Plain(RawKey(p)) && Key(RawKey(p)) == Upper(p.key) && Upper(p.key) != ""
  {
    TrimReads(p.lead, p.key, p.trail);
  }

  lemma SettingReads(p: Setting)
    requires WellSet(p)
    ensures Sealed(Written(p.value)) && Meaning(Written(p.value)) == Some(p.value.value)
  {
    if p.value.braced { BracedReads(p.value); } else { PlainReads(p.value); }
  }

  /** A pair in front of a boundary contributes its entry. */
  lemma ParseOfPair(raw: string, value: string, tail: string, v: string)
    requires Plain(raw) && Sealed(value) && Boundary(tail) && Meaning(value) == Some(v)
    ensures Parse(raw + "=" + value + tail) ==
      Prepend(Entries(raw, v), Parse(if tail == "" then "" else tail[1..]))
  {
    hide Scan, Meaning, Sealed, Plain, Entries;
    ScanPair(raw, value, tail);
    assert (raw + "=" + value + tail)[|raw|] == '=';
  }

  lemma ParseOfSetting(p: Setting, tail: string)
    requires WellSet(p) && Boundary(tail)
    ensures Parse(RawKey(p) + "=" + Written(p.value) + tail) ==
      Prepend([Entry(Upper(p.key), p.value.value)], Parse(if tail == "" then "" else tail[1..]))
  {
    hide Parse, Meaning, Sealed, Plain, WellSet, Written, RawKey;
    RawKeyIsPlain(p);
    SettingReads(p);
    ParseOfPair(RawKey(p), Written(p.value), tail, p.value.value);
  }

  /** Every spelling of a list of settings is read as that list: keys in capitals, values as written, in
      order. */
  lemma {:induction false} ParseReadsSettings(ps: seq<Setting>, closed: bool)
    requires forall i :: 0 <= i < |ps| ==> WellSet(ps[i])
    ensures Parse(Text(ps, closed)) == Some(EntriesOf(ps))
    decreases |ps|
  {
    if ps != [] {
      var tail := if |ps| == 1 && !closed then "" else ";" + Text(ps[1..], closed);
      ParseReadsSettings(ps[1..], closed);
      hide Parse, WellSet, Written, RawKey;
      ParseOfSetting(ps[0], tail);
      assert tail != "" ==> tail[1..] == Text(ps[1..], closed);
      assert tail == "" ==> Text(ps[1..], closed) == "";
    }
  }

  // ---- looking a parameter up ---------------------------------------------------------

  predicate SameLetter(a: char, b: char) { IsLetter(a, b) || IsLetter(b, a) }

  /** Names that differ in letter case only. */
  predicate SameName(a: string, b: string) { |a| == |b| && forall i :: 0 <= i < |a| ==> SameLetter(a[i], b[i]) }

  lemma SameNameIff(a: string, b: string)
    ensures SameName(a, b) <==> Upper(a) == Upper(b)
  {
    if Upper(a) == Upper(b) {
      assert |Upper(a)| == |a| && |Upper(b)| == |b|;
      forall i | 0 <= i < |a| ensures SameLetter(a[i], b[i]) { assert Upper(a)[i] == Upper(b)[i]; }
    }
  }

  /** The value looked up for a key is that of its first entry. */
  lemma {:induction false} FirstValueWins(es: seq<Entry>, i: nat)
    requires i < |es| && forall j :: 0 <= j < i ==> es[j].key != es[i].key
    ensures es[i].key in FirstWins(es) && FirstWins(es)[es[i].key] == es[i].value
    decreases i
  {
    if i > 0 { FirstValueWins(es[1..], i - 1); }
  }

  lemma {:induction false} EntryOf(ps: seq<Setting>, i: nat)
    requires i < |ps|
    ensures |EntriesOf(ps)| == |ps| && EntriesOf(ps)[i] == Entry(Upper(ps[i].key), ps[i].value.value)
    decreases |ps|
  {
    if |ps| > 1 { EntryOf(ps[1..], if i == 0 then 0 else i - 1); }
  }

  /** Whatever the letter case and spelling of a parameter, looking it up yields the value of the first
      setting of that name. */
  lemma LookupIgnoresCase(ps: seq<Setting>, closed: bool, i: nat, name: string)
    requires forall j :: 0 <= j < |ps| ==> WellSet(ps[j])
    requires i < |ps| && SameName(ps[i].key, name) && forall j :: 0 <= j < i ==> !SameName(ps[j].key, name)
    ensures Parse(Text(ps, closed)).Some?
    ensures var found := FirstWins(Parse(Text(ps, closed)).value);
      Upper(name) in found && found[Upper(name)] == ps[i].value.value
  {
    hide Parse, Text, WellSet, FirstWins, SameName, Upper, EntriesOf;
    ParseReadsSettings(ps, closed);
    SameNameIff(ps[i].key, name);
    EntryOf(ps, i);
    var es := EntriesOf(ps);
    forall j | 0 <= j < i ensures es[j].key != es[i].key {
      EntryOf(ps, j);
      SameNameIff(ps[j].key, name);
    }
    FirstValueWins(es, i);
  }
}
