/** The grammar shared by the connection-string parser and the trace masker, and the laws between
    parsing and masking. */
module ConnectionText {
  import opened Options

  // ---- scanning -------------------------------------------------------------------

  /** The first c at or after i, or the end. */
  function Find(s: string, c: char, i: nat): (r: nat)
    requires i <= |s|
    ensures i <= r <= |s|
    ensures forall k :: i <= k < r ==> s[k] != c
    ensures r < |s| ==> s[r] == c
    decreases |s| - i
  {
    if i == |s| || s[i] == c then i else Find(s, c, i + 1)
  }

  predicate IsSpace(c: char) { c == ' ' || '\t' <= c <= '\r' }

  function SkipSpaces(s: string, i: nat): (r: nat)
    requires i <= |s|
    ensures i <= r <= |s|
    ensures forall k :: i <= k < r ==> IsSpace(s[k])
    ensures r < |s| ==> !IsSpace(s[r])
    decreases |s| - i
  {
    if i < |s| && IsSpace(s[i]) then SkipSpaces(s, i + 1) else i
  }

  /** Just past the brace that closes a value opened before i; a doubled brace is a literal one. */
  function BraceEnd(s: string, i: nat): (r: Option<nat>)
    requires i <= |s|
    ensures r.Some? ==> i < r.value <= |s|
    decreases |s| - i
  {
    if i == |s| then None
    else if s[i] != '}' then BraceEnd(s, i + 1)
    else if i + 1 < |s| && s[i + 1] == '}' then BraceEnd(s, i + 2)
    else Some(i + 1)
  }

  /** The characters of a braced value, doubled braces undoubled. */
  function Body(s: string, i: nat): string
    requires i <= |s|
    decreases |s| - i
  {
    if i == |s| then ""
    else if s[i] != '}' then [s[i]] + Body(s, i + 1)
    else if i + 1 < |s| && s[i + 1] == '}' then "}" + Body(s, i + 2)
    else ""
  }

  predicate BracedAt(s: string, p: nat) { p < |s| && s[p] == '{' }

  /** Where the value that starts at i ends: the separator after it, or the end of the string. */
  function ValueEnd(s: string, i: nat): (r: Option<nat>)
    requires i <= |s|
    ensures r.Some? ==> i <= r.value <= |s| && (r.value < |s| ==> s[r.value] == ';')
  {
    var p := SkipSpaces(s, i);
    if BracedAt(s, p) then
      match BraceEnd(s, p + 1)
      case None => None
      case Some(c) => Some(Find(s, ';', c))
    else Some(Find(s, ';', p))
  }

  datatype Segment = Junk(text: string) | Pair(key: string, value: string) | Open(key: string)

  datatype Scanned = Scanned(segment: Segment, more: bool, rest: string)

  predicate HasPair(s: string) { Find(s, '=', 0) < |s| && Find(s, '=', 0) < Find(s, ';', 0) }

  /** The first segment of a string, whether a separator follows it, and what follows that. */
  function Scan(s: string): (r: Scanned)
    requires s != ""
    ensures |r.rest| < |s|
  {
    var e := Find(s, '=', 0);
    if !HasPair(s) then
      var end := Find(s, ';', 0);
      Cut(Junk(s[..end]), s, end)
    else
      match ValueEnd(s, e + 1)
      case None => Scanned(Open(s[..e]), false, "")
      case Some(end) => Cut(Pair(s[..e], s[e + 1..end]), s, end)
  }

  function Cut(segment: Segment, s: string, end: nat): (r: Scanned)
    requires s != "" && end <= |s|
    ensures |r.rest| < |s|
  {
    if end < |s| then Scanned(segment, true, s[end + 1..]) else Scanned(segment, false, "")
  }

  // ---- the parser -----------------------------------------------------------------

  predicate IsTrimmed(c: char) { c == ' ' || c == '\t' || c == '\r' || c == '\n' }

  function TrimFront(s: string): string {
    if s != "" && IsTrimmed(s[0]) then TrimFront(s[1..]) else s
  }

  function TrimBack(s: string): string {
    if s != "" && IsTrimmed(s[|s| - 1]) then TrimBack(s[..|s| - 1]) else s
  }

  function Trim(s: string): string { TrimBack(TrimFront(s)) }

  function UpperChar(c: char): char {
    if 'a' <= c <= 'z' then c - 'a' + 'A' else c
  }

  function Upper(s: string): string { seq(|s|, i requires 0 <= i < |s| => UpperChar(s[i])) }

  function Key(raw: string): string { Upper(Trim(raw)) }

  /** The meaning of a value: none when text follows a closing brace. */
  function Meaning(v: string): Option<string> {
    var p := SkipSpaces(v, 0);
    if BracedAt(v, p) then
      match BraceEnd(v, p + 1)
      case None => None
      case Some(c) => if SkipSpaces(v, c) == |v| then Some(Body(v, p + 1)) else None
    else Some(Trim(v[p..]))
  }

  datatype Entry = Entry(key: string, value: string)

  /** What a pair contributes; a blank key contributes nothing. */
  function Entries(raw: string, value: string): seq<Entry> {
    if Key(raw) == "" then [] else [Entry(Key(raw), value)]
  }

  function Prepend(front: seq<Entry>, rest: Option<seq<Entry>>): Option<seq<Entry>> {
    match rest case None => None case Some(es) => Some(front + es)
  }

  /** The entries of a connection string in order; none when the string is malformed. */
  function Parse(s: string): Option<seq<Entry>>
    decreases |s|
  {
    if s == "" then Some([])
    else
      var r := Scan(s);
      match r.segment
      case Junk(_) => Parse(r.rest)
      case Open(_) => None
      case Pair(key, value) =>
        match Meaning(value)
        case None => None
        case Some(v) => Prepend(Entries(key, v), Parse(r.rest))
  }

  /** A connection string is accepted without NUL bytes. */
  function Accepted(s: string): Option<seq<Entry>> {
    if '\0' in s then None else Parse(s)
  }

  /** The first entry of a key wins. */
  function FirstWins(es: seq<Entry>): map<string, string> {
    if es == [] then map[]
    else FirstWins(es[1..])[es[0].key := es[0].value]
  }

  // ---- the masker -----------------------------------------------------------------

  predicate Contains(s: string, word: string)
    decreases |s|
  {
    word <= s || (s != "" && Contains(s[1..], word))
  }

  predicate Secret(key: string) {
    key == "PWD" || Contains(key, "PASSWORD") || Contains(key, "SECRET") || Contains(key, "TOKEN")
  }

  const STARS := "***"

  function MaskValue(key: string, value: string): string {
    if Secret(Key(key)) then STARS else value
  }

  function Separator(more: bool): string { if more then ";" else "" }

  function Shown(segment: Segment): string {
    match segment
    case Junk(text) => text
    case Pair(key, value) => key + "=" + MaskValue(key, value)
    case Open(key) => key + "=" + STARS
  }

  function Mask(s: string): string
    decreases |s|
  {
    if s == "" then ""
    else
      var r := Scan(s);
      Shown(r.segment) + Separator(r.more) + Mask(r.rest)
  }

  function MaskEntry(e: Entry): Entry {
    if Secret(e.key) then Entry(e.key, STARS) else e
  }

  function MaskEntries(es: seq<Entry>): seq<Entry> {
    if es == [] then [] else [MaskEntry(es[0])] + MaskEntries(es[1..])
  }

  // ---- locality -------------------------------------------------------------------

  predicate Plain(s: string) { '=' !in s && ';' !in s }

  /** A value region: it ends where it ends. */
  predicate Sealed(v: string) { ValueEnd(v, 0) == Some(|v|) }

  predicate Boundary(tail: string) { tail == "" || tail[0] == ';' }

  lemma {:induction false} FindAfter(pre: string, s: string, c: char, i: nat)
    requires i <= |s|
    ensures Find(pre + s, c, |pre| + i) == |pre| + Find(s, c, i)
    decreases |s| - i
  {
    if i < |s| && s[i] != c { FindAfter(pre, s, c, i + 1); }
  }

  lemma {:induction false} SkipAfter(pre: string, s: string, i: nat)
    requires i <= |s|
    ensures SkipSpaces(pre + s, |pre| + i) == |pre| + SkipSpaces(s, i)
    decreases |s| - i
  {
    if i < |s| && IsSpace(s[i]) { SkipAfter(pre, s, i + 1); }
  }

  function Shift(k: nat, r: Option<nat>): Option<nat> {
    match r case None => None case Some(n) => Some(k + n)
  }

  lemma {:induction false} BraceAfter(pre: string, s: string, i: nat)
    requires i <= |s|
    ensures BraceEnd(pre + s, |pre| + i) == Shift(|pre|, BraceEnd(s, i))
    decreases |s| - i
  {
    if i < |s| {
      if s[i] != '}' { BraceAfter(pre, s, i + 1); }
      else if i + 1 < |s| && s[i + 1] == '}' { BraceAfter(pre, s, i + 2); }
    }
  }

  lemma {:induction false} BodyAfter(pre: string, s: string, i: nat)
    requires i <= |s|
    ensures Body(pre + s, |pre| + i) == Body(s, i)
    decreases |s| - i
  {
    if i < |s| {
      assert (pre + s)[|pre| + i] == s[i];
      assert i + 1 < |s| ==> (pre + s)[|pre| + i + 1] == s[i + 1];
      if s[i] != '}' { BodyAfter(pre, s, i + 1); }
      else if i + 1 < |s| && s[i + 1] == '}' { BodyAfter(pre, s, i + 2); }
    }
  }

  lemma ValueAfter(pre: string, s: string, i: nat)
    requires i <= |s|
    ensures ValueEnd(pre + s, |pre| + i) == Shift(|pre|, ValueEnd(s, i))
  {
    hide Find, SkipSpaces, BraceEnd;
    var p := SkipSpaces(s, i);
    SkipAfter(pre, s, i);
    assert p < |s| ==> (pre + s)[|pre| + p] == s[p];
    if BracedAt(s, p) {
      BraceAfter(pre, s, p + 1);
      var c := BraceEnd(s, p + 1);
      if c.Some? { FindAfter(pre, s, ';', c.value); }
    } else {
      FindAfter(pre, s, ';', p);
    }
  }

  lemma {:induction false} BraceBefore(v: string, tail: string, i: nat)
    requires i <= |v| && Boundary(tail)
    ensures BraceEnd(v, i).Some? ==> BraceEnd(v + tail, i) == BraceEnd(v, i) && Body(v + tail, i) == Body(v, i)
    ensures BraceEnd(v, i).None? && BraceEnd(v + tail, i).Some? ==> BraceEnd(v + tail, i).value > |v|
    decreases |v| - i
  {
    if i < |v| {
      if v[i] != '}' { BraceBefore(v, tail, i + 1); }
      else if i + 1 < |v| && v[i + 1] == '}' { BraceBefore(v, tail, i + 2); }
    }
  }

  lemma {:induction false} SkipBefore(v: string, tail: string, i: nat)
    requires i <= |v| && Boundary(tail)
    ensures SkipSpaces(v + tail, i) == SkipSpaces(v, i)
    decreases |v| - i
  {
    if i < |v| && IsSpace(v[i]) { SkipBefore(v, tail, i + 1); }
  }

  lemma {:induction false} FindBefore(v: string, tail: string, i: nat)
    requires i <= |v| && Boundary(tail)
    ensures Find(v + tail, ';', i) == Find(v, ';', i)
    decreases |v| - i
  {
    if i < |v| && v[i] != ';' { FindBefore(v, tail, i + 1); }
  }

  /** What follows a value's separator does not change where the value ends. */
  lemma ValueBefore(v: string, tail: string)
    requires Boundary(tail)
    ensures ValueEnd(v + tail, 0) == Some(|v|) <==> Sealed(v)
  {
    hide Find, SkipSpaces, BraceEnd;
    var p := SkipSpaces(v, 0);
    SkipBefore(v, tail, 0);
    if BracedAt(v, p) {
      BraceBefore(v, tail, p + 1);
      var c := BraceEnd(v, p + 1);
      if c.Some? { FindBefore(v, tail, c.value); }
    } else {
      FindBefore(v, tail, p);
    }
  }

  lemma FindSplit(s: string, c: char, tail: string)
    requires c !in s && (tail == "" || tail[0] == c)
    ensures Find(s + tail, c, 0) == |s|
  {
    assert forall k :: 0 <= k < |s| ==> (s + tail)[k] in s;
    assert tail != "" ==> (s + tail)[|s|] == c;
  }

  /** A plain text before a boundary scans as junk. */
  lemma ScanJunk(text: string, tail: string)
    requires Plain(text) && Boundary(tail) && text + tail != ""
    ensures Scan(text + tail) == Scanned(Junk(text), tail != "", if tail == "" then "" else tail[1..])
  {
    hide Find;
    var s := text + tail;
    FindSplit(text, ';', tail);
    assert forall k :: 0 <= k < |text| ==> s[k] in text;
    assert s[..|text|] == text;
    if tail != "" { assert s[|text| + 1..] == tail[1..]; }
  }

  lemma PairStarts(key: string, rest: string)
    requires Plain(key)
    ensures var s := key + "=" + rest; Find(s, '=', 0) == |key| && HasPair(s) && s[..|key|] == key
  {
    hide Find;
    var s := key + "=" + rest;
    assert s == key + ("=" + rest);
    FindSplit(key, '=', "=" + rest);
    assert (forall k :: 0 <= k < |key| ==> s[k] in key) && s[|key|] == '=';
  }

  lemma ThreeParts(pre: string, value: string, tail: string)
    ensures var s := pre + value + tail;
      && s == pre + (value + tail)
      && s[|pre|..|pre| + |value|] == value && s[|pre| + |value|..] == tail
  {
  }

  /** A key, an equals sign and a sealed value before a boundary scan as that pair. */
  lemma ScanPair(key: string, value: string, tail: string)
    requires Plain(key) && Sealed(value) && Boundary(tail)
    ensures Scan(key + "=" + value + tail) == Scanned(Pair(key, value), tail != "", if tail == "" then "" else tail[1..])
  {
    hide Find, ValueEnd, Plain, HasPair;
    var pre := key + "=";
    var s := key + "=" + value + tail;
    ThreeParts(pre, value, tail);
    PairStarts(key, value + tail);
    ValueBefore(value, tail);
    ValueAfter(pre, value + tail, 0);
    var end := |pre| + |value|;
    if tail != "" { assert s[end + 1..] == s[end..][1..]; }
  }

  predicate WellScanned(s: string, r: Scanned) {
    && (!r.more ==> r.rest == "")
    && match r.segment
       case Junk(text) => Plain(text) && s == text + Separator(r.more) + r.rest
       case Pair(key, value) => Plain(key) && Sealed(value) && s == key + "=" + value + Separator(r.more) + r.rest
       case Open(key) => Plain(key) && !r.more && key <= s
  }

  lemma PlainFront(s: string, n: nat)
    requires n <= |s| && n <= Find(s, '=', 0) && n <= Find(s, ';', 0)
    ensures Plain(s[..n])
  {
    hide Find;
    assert forall k :: 0 <= k < n ==> s[..n][k] == s[k];
  }

  lemma JunkForm(s: string, d: nat)
    requires d <= |s| && (d < |s| ==> s[d] == ';')
    ensures d < |s| ==> s == s[..d] + ";" + s[d + 1..]
    ensures d == |s| ==> s == s[..d] + "" + ""
  {
  }

  lemma CutForm(segment: Segment, text: string, s: string, end: nat)
    requires s != "" && end <= |s| && (end < |s| ==> s[end] == ';') && text == s[..end]
    ensures var r := Cut(segment, s, end);
      r.segment == segment && (!r.more ==> r.rest == "") && s == text + Separator(r.more) + r.rest
  {
    JunkForm(s, end);
  }

  lemma PairSplit(s: string, e: nat, end: nat)
    requires e < end <= |s| && s[e] == '='
    ensures s[..end] == s[..e] + "=" + s[e + 1..end]
  {
  }

  /** Every scan is of one of those forms, or an unterminated brace. */
  lemma ScanForms(s: string)
    requires s != ""
    ensures WellScanned(s, Scan(s))
  {
    hide Find, ValueEnd, Plain, Sealed, Cut, Separator;
    var e, d := Find(s, '=', 0), Find(s, ';', 0);
    if HasPair(s) {
      PlainFront(s, e);
      var end := ValueEnd(s, e + 1);
      if end.Some? {
        PairForm(s, e, end.value);
        PairSplit(s, e, end.value);
        CutForm(Pair(s[..e], s[e + 1..end.value]), s[..end.value], s, end.value);
      }
    } else {
      PlainFront(s, d);
      CutForm(Junk(s[..d]), s[..d], s, d);
    }
  }

  lemma PairForm(s: string, e: nat, end: nat)
    requires e < |s| && s[e] == '=' && ValueEnd(s, e + 1) == Some(end)
    ensures Sealed(s[e + 1..end])
  {
    hide ValueEnd;
    var pre, value, tail := s[..e] + "=", s[e + 1..end], s[end..];
    assert s == pre + (value + tail);
    ValueAfter(pre, value + tail, 0);
    ValueBefore(value, tail);
  }
}
