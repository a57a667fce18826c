/** The connection-string parser and the trace masker as the loops that implement them. */
module ConnectionString {
  import opened Options
  import opened ConnectionText

  // ---- positions in the whole string ------------------------------------------------

  /** Scanning from a position agrees with scanning the rest of the string on its own. */
  lemma AtPosition(s: string, p: nat)
    requires p <= |s|
    ensures Find(s, '=', p) == p + Find(s[p..], '=', 0) && Find(s, ';', p) == p + Find(s[p..], ';', 0)
  {
    hide Find;
    assert s == s[..p] + s[p..];
    FindAfter(s[..p], s[p..], '=', 0);
    FindAfter(s[..p], s[p..], ';', 0);
  }

  lemma ValueAtPosition(s: string, p: nat, i: nat)
    requires p <= i <= |s|
    ensures ValueEnd(s, i) == Shift(p, ValueEnd(s[p..], i - p))
  {
    hide ValueEnd;
    assert s == s[..p] + s[p..];
    ValueAfter(s[..p], s[p..], i - p);
  }

  predicate PairAt(s: string, p: nat)
    requires p <= |s|
  {
    Find(s, '=', p) < |s| && Find(s, '=', p) < Find(s, ';', p)
  }

  /** After the separator at `end`, or past the end. */
  function NextPosition(s: string, end: nat): (r: nat)
    requires end <= |s|
    ensures r <= |s|
  {
    if end < |s| then end + 1 else end
  }

  lemma Slices(s: string, p: nat, i: nat, j: nat)
    requires p <= i <= j <= |s|
    ensures s[p..][i - p..j - p] == s[i..j] && s[p..][j - p..] == s[j..]
  {
  }

  lemma CutAt(segment: Segment, s: string, p: nat, end: nat)
    requires p <= end <= |s| && p < |s|
    ensures Cut(segment, s[p..], end - p) == Scanned(segment, end < |s|, s[NextPosition(s, end)..])
  {
    Slices(s, p, end, NextPosition(s, end));
  }

  lemma ScanJunkAt(s: string, p: nat)
    requires p < |s| && !PairAt(s, p)
    ensures var end := Find(s, ';', p);
      Scan(s[p..]) == Scanned(Junk(s[p..end]), end < |s|, s[NextPosition(s, end)..])
  {
    hide Find, ValueEnd, Cut;
    AtPosition(s, p);
    var end := Find(s, ';', p);
    Slices(s, p, p, end);
    CutAt(Junk(s[p..end]), s, p, end);
  }

  lemma PairInRest(s: string, p: nat)
    requires p < |s| && PairAt(s, p)
    ensures HasPair(s[p..]) && Find(s[p..], '=', 0) == Find(s, '=', p) - p && Find(s, '=', p) < |s|
  {
    hide Find;
    AtPosition(s, p);
  }

  lemma ScanWhole(t: string, e: nat)
    requires HasPair(t) && Find(t, '=', 0) == e
    ensures Scan(t) == match ValueEnd(t, e + 1)
                       case None => Scanned(Open(t[..e]), false, "")
                       case Some(end) => Cut(Pair(t[..e], t[e + 1..end]), t, end)
  {
    hide Find, ValueEnd, Cut;
  }

  lemma ScanPairAt(s: string, p: nat)
    requires p < |s| && PairAt(s, p)
    ensures var e := Find(s, '=', p);
      match ValueEnd(s, e + 1)
      case None => Scan(s[p..]) == Scanned(Open(s[p..e]), false, "")
      case Some(end) =>
        Scan(s[p..]) == Scanned(Pair(s[p..e], s[e + 1..end]), end < |s|, s[NextPosition(s, end)..])
  {
    hide Find, ValueEnd, Cut, NextPosition, Scan, HasPair, PairAt;
    PairInRest(s, p);
    var e := Find(s, '=', p);
    ScanWhole(s[p..], e - p);
    Slices(s, p, p, e);
    ValueAtPosition(s, p, e + 1);
    var end := ValueEnd(s, e + 1);
    if end.Some? {
      Slices(s, p, e + 1, end.value);
      CutAt(Pair(s[p..e], s[e + 1..end.value]), s, p, end.value);
    }
  }

  /** The meaning of the value between two positions, read off the whole string. */
  function MeaningIn(s: string, start: nat, end: nat): Option<string>
    requires start <= |s| && end <= |s|
  {
    var p := SkipSpaces(s, start);
    if BracedAt(s, p) then
      match BraceEnd(s, p + 1)
      case None => None
      case Some(c) => if SkipSpaces(s, c) == end then Some(Body(s, p + 1)) else None
    else if p <= end then Some(Trim(s[p..end])) else None
  }

  lemma MeaningBefore(v: string, tail: string)
    requires Sealed(v) && Boundary(tail)
    ensures MeaningIn(v + tail, 0, |v|) == Meaning(v)
  {
    hide Find, SkipSpaces, BraceEnd, Body, Trim;
    var p := SkipSpaces(v, 0);
    SkipBefore(v, tail, 0);
    if BracedAt(v, p) {
      BraceBefore(v, tail, p + 1);
      SkipBefore(v, tail, BraceEnd(v, p + 1).value);
    } else {
      assert v[p..] == (v + tail)[p..|v|];
    }
  }

  lemma MeaningAfter(pre: string, s: string, end: nat)
    requires end <= |s|
    ensures MeaningIn(pre + s, |pre|, |pre| + end) == MeaningIn(s, 0, end)
  {
    hide Find, SkipSpaces, BraceEnd, Body, Trim;
    var p := SkipSpaces(s, 0);
    SkipAfter(pre, s, 0);
    assert p < |s| ==> (pre + s)[|pre| + p] == s[p];
    if BracedAt(s, p) {
      BraceAfter(pre, s, p + 1);
      BodyAfter(pre, s, p + 1);
      var c := BraceEnd(s, p + 1);
      if c.Some? { SkipAfter(pre, s, c.value); }
    } else if p <= end {
      SliceAfter(pre, s, p, end);
    }
  }

  lemma SliceAfter(pre: string, s: string, i: nat, j: nat)
    requires i <= j <= |s|
    ensures (pre + s)[|pre| + i..|pre| + j] == s[i..j]
  {
    assert |(pre + s)[|pre| + i..|pre| + j]| == j - i;
  }

  lemma MeaningAt(s: string, start: nat, end: nat)
    requires start <= |s| && ValueEnd(s, start) == Some(end)
    ensures Meaning(s[start..end]) == MeaningIn(s, start, end)
  {
    hide ValueEnd, Meaning, MeaningIn;
    var pre, v, tail := s[..start], s[start..end], s[end..];
    assert s == pre + (v + tail);
    ValueAfter(pre, v + tail, 0);
    ValueBefore(v, tail);
    MeaningBefore(v, tail);
    MeaningAfter(pre, v + tail, |v|);
  }

  // ---- the parser -----------------------------------------------------------------

  method SkipSpacesFrom(s: string, start: nat) returns (position: nat)
    requires start <= |s|
    ensures position == SkipSpaces(s, start)
  {
    position := start;
    while position < |s| && IsSpace(s[position])
      invariant position <= |s| && SkipSpaces(s, position) == SkipSpaces(s, start)
    {
      position := position + 1;
    }
  }

  lemma BraceStep(s: string, i: nat)
    requires i < |s|
    ensures s[i] != '}' ==> BraceEnd(s, i) == BraceEnd(s, i + 1) && Body(s, i) == [s[i]] + Body(s, i + 1)
    ensures s[i] == '}' && i + 1 < |s| && s[i + 1] == '}' ==>
      BraceEnd(s, i) == BraceEnd(s, i + 2) && Body(s, i) == "}" + Body(s, i + 2)
    ensures s[i] == '}' && !(i + 1 < |s| && s[i + 1] == '}') ==> BraceEnd(s, i) == Some(i + 1) && Body(s, i) == ""
  {
  }

  lemma BraceStop(s: string)
    ensures BraceEnd(s, |s|).None?
  {
  }

  /** Reads a braced value whose opening brace is before `start`. */
  method ReadBraced(s: string, start: nat) returns (closed: bool, value: string, position: nat)
    requires start <= |s|
    ensures closed <==> BraceEnd(s, start).Some?
    ensures closed ==> position == BraceEnd(s, start).value && value == Body(s, start)
  {
    hide BraceEnd, Body;
    closed, value, position := false, "", start;
    assert "" + Body(s, start) == Body(s, start);
    while position < |s|
      invariant position <= |s|
      invariant BraceEnd(s, start) == BraceEnd(s, position) && Body(s, start) == value + Body(s, position)
    {
      BraceStep(s, position);
      var current := s[position];
      position := position + 1;
      if current != '}' {
        Regroup(value, [current], Body(s, position));
        value := value + [current];
      } else if position < |s| && s[position] == '}' {
        position := position + 1;
        Regroup(value, "}", Body(s, position));
        value := value + "}";
      } else {
        closed := true;
        return;
      }
    }
    BraceStop(s);
  }

  /** Reads the value that starts after an equals sign. */
  method ReadValue(s: string, start: nat) returns (ok: bool, value: string, position: nat)
    requires start <= |s|
    ensures ok <==> ValueEnd(s, start).Some? && Meaning(s[start..ValueEnd(s, start).value]).Some?
    ensures ok ==> position == ValueEnd(s, start).value && value == Meaning(s[start..position]).value
  {
    hide Meaning, Body, Trim;
    ghost var end := ValueEnd(s, start);
    if end.Some? { MeaningAt(s, start, end.value); }
    position := SkipSpacesFrom(s, start);
    value := "";
    if position < |s| && s[position] == '{' {
      var closed;
      closed, value, position := ReadBraced(s, position + 1);
      if !closed { return false, value, position; }
      position := SkipSpacesFrom(s, position);
      if position < |s| && s[position] != ';' { return false, value, position; }
    } else {
      var close := Find(s, ';', position);
      value := Trim(s[position..close]);
      position := close;
    }
    ok := true;
  }

  lemma {:induction false} FirstWinsAppend(es: seq<Entry>, e: Entry)
    ensures FirstWins(es + [e]) == if e.key in FirstWins(es) then FirstWins(es) else FirstWins(es)[e.key := e.value]
  {
    if es == [] {
      assert es + [e] == [e];
    } else {
      assert (es + [e])[1..] == es[1..] + [e];
      FirstWinsAppend(es[1..], e);
    }
  }

  lemma ParseJunkAt(s: string, p: nat)
    requires p < |s| && !PairAt(s, p)
    ensures Parse(s[p..]) == Parse(s[NextPosition(s, Find(s, ';', p))..])
  {
    hide Find, Scan, Meaning;
    ScanJunkAt(s, p);
  }

  lemma ParsePairAt(s: string, p: nat)
    requires p < |s| && PairAt(s, p)
    ensures var e := Find(s, '=', p);
      match ValueEnd(s, e + 1)
      case None => Parse(s[p..]) == None
      case Some(end) =>
        Parse(s[p..]) == match Meaning(s[e + 1..end])
                         case None => None
                         case Some(v) => Prepend(Entries(s[p..e], v), Parse(s[NextPosition(s, end)..]))
  {
    hide Find, Scan, Meaning, ValueEnd, Key;
    ScanPairAt(s, p);
  }

  lemma PrependNothing(rest: Option<seq<Entry>>)
    ensures Prepend([], rest) == rest
  {
    if rest.Some? { assert [] + rest.value == rest.value; }
  }

  lemma PrependTwice(a: seq<Entry>, b: seq<Entry>, rest: Option<seq<Entry>>)
    ensures Prepend(a, Prepend(b, rest)) == Prepend(a + b, rest)
  {
    if rest.Some? { assert a + (b + rest.value) == a + b + rest.value; }
  }

  lemma EndOfParse(s: string, seen: seq<Entry>)
    ensures Prepend(seen, Parse(s[|s|..])) == Some(seen)
  {
    assert seen + [] == seen;
  }

  /** Records a pair: a blank key is ignored and the first value of a key is kept. */
  method Record(params: map<string, string>, raw: string, value: string, ghost seen: seq<Entry>)
    returns (out: map<string, string>)
    requires params == FirstWins(seen)
    ensures out == FirstWins(seen + Entries(raw, value))
  {
    hide Key;
    var key := Key(raw);
    out := params;
    if key != "" {
      FirstWinsAppend(seen, Entry(key, value));
      if key !in params { out := params[key := value]; }
    } else {
      assert seen + [] == seen;
    }
  }

  /** ConnectionString::parse: none stands for its exceptions. */
  method ParseString(s: string) returns (r: Option<map<string, string>>)
    ensures r == match Accepted(s) case None => None case Some(es) => Some(FirstWins(es))
  {
    hide Find, ValueEnd, Meaning, Entries, Parse, Prepend, FirstWins;
    if '\0' in s { return None; }
    var params: map<string, string>, position := map[], 0;
    ghost var seen: seq<Entry> := [];
    assert s[0..] == s;
    assert FirstWins(seen) == map[] by { FirstWinsOfNothing(); }
    PrependNothing(Parse(s));
    while position < |s|
      invariant position <= |s| && params == FirstWins(seen)
      invariant Parse(s) == Prepend(seen, Parse(s[position..]))
      decreases |s| - position
    {
      var separator, equals := Find(s, ';', position), Find(s, '=', position);
      if equals == |s| || separator < equals {
        ParseJunkAt(s, position);
        if separator == |s| { break; }
        position := separator + 1;
      } else {
        ParsePairAt(s, position);
        var ok, value, next := ReadValue(s, equals + 1);
        if !ok { NoneStays(seen); return None; }
        PrependTwice(seen, Entries(s[position..equals], value), Parse(s[NextPosition(s, next)..]));
        params := Record(params, s[position..equals], value, seen);
        seen := seen + Entries(s[position..equals], value);
        position := if next < |s| then next + 1 else next;
      }
    }
    EndOfParse(s, seen);
    return Some(params);
  }

  lemma FirstWinsOfNothing()
    ensures FirstWins([]) == map[]
  {
  }

  lemma NoneStays(seen: seq<Entry>)
    ensures Prepend(seen, None) == None
  {
  }

  // ---- the masker -----------------------------------------------------------------

  /** Where the value after an equals sign ends, or none when its brace is never closed. */
  method FindValueEnd(s: string, start: nat) returns (end: Option<nat>)
    requires start <= |s|
    ensures end == ValueEnd(s, start)
  {
    var position := SkipSpacesFrom(s, start);
    if position < |s| && s[position] == '{' {
      position := position + 1;
      ghost var open := position;
      var terminated := false;
      while position < |s|
        invariant open <= position <= |s|
        invariant !terminated && BraceEnd(s, open) == BraceEnd(s, position)
      {
        if s[position] == '}' {
          if position + 1 < |s| && s[position + 1] == '}' {
            position := position + 2;
            continue;
          }
          position := position + 1;
          terminated := true;
          break;
        }
        position := position + 1;
      }
      if !terminated { return None; }
    }
    return Some(Find(s, ';', position));
  }

  lemma MaskJunkAt(s: string, p: nat)
    requires p < |s| && !PairAt(s, p)
    ensures var next := NextPosition(s, Find(s, ';', p)); Mask(s[p..]) == s[p..next] + Mask(s[next..])
  {
    hide Find, Scan;
    ScanJunkAt(s, p);
    var d := Find(s, ';', p);
    assert s[p..NextPosition(s, d)] == s[p..d] + Separator(d < |s|);
  }

  function PairText(key: string, value: string, more: bool): string {
    key + "=" + MaskValue(key, value) + Separator(more)
  }

  method ShowPair(key: string, value: string, more: bool) returns (text: string)
    ensures text == PairText(key, value, more)
  {
    text := key + "=";
    text := text + if Secret(Key(key)) then STARS else value;
    if more { text := text + ";"; }
  }

  lemma MaskPairAt(s: string, p: nat)
    requires p < |s| && PairAt(s, p)
    ensures var e := Find(s, '=', p);
      match ValueEnd(s, e + 1)
      case None => Mask(s[p..]) == s[p..e] + "=" + STARS
      case Some(end) =>
        Mask(s[p..]) == PairText(s[p..e], s[e + 1..end], end < |s|) + Mask(s[NextPosition(s, end)..])
  {
    hide Find, Scan, ValueEnd, MaskValue;
    ScanPairAt(s, p);
  }

  /** mask_connection_string. */
  method MaskString(s: string) returns (result: string)
    ensures result == Mask(s)
  {
    hide Find, ValueEnd, PairText, Mask;
    result := "";
    var position := 0;
    assert s[0..] == s && "" + Mask(s) == Mask(s);
    while position < |s|
      invariant position <= |s|
      invariant Mask(s) == result + Mask(s[position..])
      decreases |s| - position
    {
      var equals, semicolon := Find(s, '=', position), Find(s, ';', position);
      if equals == |s| || semicolon < equals {
        MaskJunkAt(s, position);
        var end := if semicolon == |s| then |s| else semicolon + 1;
        Regroup(result, s[position..end], Mask(s[end..]));
        result := result + s[position..end];
        position := end;
      } else {
        MaskPairAt(s, position);
        var key := s[position..equals];
        var end := FindValueEnd(s, equals + 1);
        if end.None? {
          result := result + (key + "=" + STARS);
          return;
        }
        var shown := ShowPair(key, s[equals + 1..end.value], end.value < |s|);
        Regroup(result, shown, Mask(s[NextPosition(s, end.value)..]));
        result := result + shown;
        position := if end.value < |s| then end.value + 1 else |s|;
      }
    }
    assert s[position..] == "" && Mask("") == "" by { MaskOfNothing(); }
  }

  lemma MaskOfNothing()
    ensures Mask("") == ""
  {
  }

  lemma Regroup(a: string, b: string, c: string)
    ensures a + (b + c) == a + b + c
  {
  }
}
