/** Chunked retrieval: what one SQLGetData call copies, and what any sequence of calls adds
    up to. Items are bytes or UTF-16 units as integers. */
module Chunking {
  import opened MachineWords

  datatype Progress = At(done: nat) | Complete

  /** How items are laid out: bytes per item, whether a terminator is appended, whether items
      are hexadecimal digits. */
  datatype Style = Style(unit: nat, terminated: bool, hex: bool)

  predicate ValidStyle(s: Style) {
    s.unit == 1 || s.unit == 2
  }

  predicate HighItem(x: int) {
    0xD800 <= x <= 0xDBFF
  }

  function UnitsIn(s: Style, length: nat): nat {
    if s.unit == 2 then length / 2 else length
  }

  function BytesOf(s: Style, items: nat): nat {
    if s.unit == 2 then 2 * items else items
  }

  /** Items a buffer of `length` bytes has room for, next to the terminator. */
  function Capacity(s: Style, length: nat): nat
    requires ValidStyle(s)
  {
    var units := UnitsIn(s, length);
    if !s.terminated then units else if units > 0 then units - 1 else 0
  }

  /** A terminated style needs room for the terminator before it can complete. */
  predicate HoldsEnd(s: Style, length: nat)
    requires ValidStyle(s)
  {
    !s.terminated || UnitsIn(s, length) > 0
  }

  function CopyCount(src: seq<int>, s: Style, offset: nat, length: nat): (n: nat)
    requires ValidStyle(s) && offset <= |src|
    ensures n <= Capacity(s, length) && offset + n <= |src|
  {
    var remaining := |src| - offset;
    var room := Min(Capacity(s, length), remaining);
    var even := if s.hex && room < remaining then room - room % 2 else room;
    if s.unit == 2 && 0 < even < remaining && HighItem(src[offset + even - 1]) then even - 1 else even
  }

  /** One call: the items copied, the bytes that were unread before it, and the new progress. */
  datatype Chunk = Chunk(items: seq<int>, indicator: nat, next: Progress)

  function Take(src: seq<int>, s: Style, offset: nat, length: nat): (c: Chunk)
    requires ValidStyle(s) && offset <= |src|
    ensures c.next.At? ==> offset <= c.next.done <= |src|
  {
    var n := CopyCount(src, s, offset, length);
    Chunk(src[offset..offset + n], BytesOf(s, |src| - offset),
          if offset + n < |src| || !HoldsEnd(s, length) then At(offset + n) else Complete)
  }

  /** Where a retrieval stands in the source. */
  function Reached(src: seq<int>, p: Progress): nat {
    match p
    case At(n) => n
    case Complete => |src|
  }

  predicate InSource(src: seq<int>, p: Progress) {
    p.At? ==> p.done <= |src|
  }

  // ---- sequences of calls ---------------------------------------------------------

  /** Calls with the given buffer lengths; a completed retrieval answers SQL_NO_DATA, which
      copies nothing. */
  function Drain(src: seq<int>, s: Style, p: Progress, lengths: seq<nat>): (r: (seq<Chunk>, Progress))
    requires ValidStyle(s) && InSource(src, p)
    ensures InSource(src, r.1)
    decreases |lengths|
  {
    if lengths == [] || p.Complete? then ([], p)
    else
      var c := Take(src, s, p.done, lengths[0]);
      var rest := Drain(src, s, c.next, lengths[1..]);
      ([c] + rest.0, rest.1)
  }

  function Concat(chunks: seq<Chunk>): seq<int> {
    if chunks == [] then [] else chunks[0].items + Concat(chunks[1..])
  }

  lemma TakeAdvances(src: seq<int>, s: Style, offset: nat, length: nat)
    requires ValidStyle(s) && offset <= |src|
    ensures var c := Take(src, s, offset, length);
      offset <= Reached(src, c.next) && c.items == src[offset..Reached(src, c.next)]
  {
  }

  /** Nothing is lost, repeated or reordered: for every sequence of buffer lengths the chunks
      add up to exactly the part of the source passed so far. */
  lemma {:induction false} DrainConserves(src: seq<int>, s: Style, p: Progress, lengths: seq<nat>)
    requires ValidStyle(s) && InSource(src, p)
    ensures var r := Drain(src, s, p, lengths);
      && Reached(src, p) <= Reached(src, r.1)
      && Concat(r.0) == src[Reached(src, p)..Reached(src, r.1)]
      && (r.1.Complete? && p == At(0) ==> Concat(r.0) == src)
    decreases |lengths|
  {
    hide Take;
    if lengths != [] && p.At? {
      var c := Take(src, s, p.done, lengths[0]);
      var rest := Drain(src, s, c.next, lengths[1..]);
      TakeAdvances(src, s, p.done, lengths[0]);
      DrainConserves(src, s, c.next, lengths[1..]);
      var r := Drain(src, s, p, lengths).0;
      assert r == [c] + rest.0 && r[1..] == rest.0;
      var a, b, e := p.done, Reached(src, c.next), Reached(src, rest.1);
      assert src[a..b] + src[b..e] == src[a..e];
    }
  }

  function CopiedBefore(chunks: seq<Chunk>, i: nat): nat
    requires i <= |chunks|
  {
    |Concat(chunks[..i])|
  }

  lemma {:induction false} ConcatAppends(a: seq<Chunk>, b: seq<Chunk>)
    ensures Concat(a + b) == Concat(a) + Concat(b)
  {
    if a == [] {
      assert a + b == b;
    } else {
      assert (a + b)[1..] == a[1..] + b;
      ConcatAppends(a[1..], b);
    }
  }

  /** Each indicator is the number of bytes still unread when its call was made. */
  lemma {:induction false} IndicatorIsUnread(src: seq<int>, s: Style, p: Progress, lengths: seq<nat>, i: nat)
    requires ValidStyle(s) && InSource(src, p) && i < |Drain(src, s, p, lengths).0|
    ensures var chunks := Drain(src, s, p, lengths).0;
      CopiedBefore(chunks, i) <= |src| - Reached(src, p) &&
      chunks[i].indicator == BytesOf(s, |src| - Reached(src, p) - CopiedBefore(chunks, i))
    decreases |lengths|
  {
    var chunks := Drain(src, s, p, lengths).0;
    var c := Take(src, s, p.done, lengths[0]);
    if i > 0 {
      TakeAdvances(src, s, p.done, lengths[0]);
      IndicatorIsUnread(src, s, c.next, lengths[1..], i - 1);
      assert chunks[..i] == [c] + Drain(src, s, c.next, lengths[1..]).0[..i - 1];
      ConcatAppends([c], Drain(src, s, c.next, lengths[1..]).0[..i - 1]);
      assert Concat([c]) == c.items;
    }
  }

  /** A buffer that can always make progress: hexadecimal digits travel in pairs and UTF-16
      units may have to, so those need room for two items. */
  predicate Usable(s: Style, length: nat)
    requires ValidStyle(s)
  {
    HoldsEnd(s, length) && Capacity(s, length) >= (if s.hex || s.unit == 2 then 2 else 1)
  }

  /** The unread count is a termination measure: enough usable buffers always complete. */
  lemma {:induction false} DrainCompletes(src: seq<int>, s: Style, p: Progress, lengths: seq<nat>)
    requires ValidStyle(s) && InSource(src, p)
    requires forall i :: 0 <= i < |lengths| ==> Usable(s, lengths[i])
    requires |lengths| > |src| - Reached(src, p)
    ensures Drain(src, s, p, lengths).1.Complete?
    decreases |lengths|
  {
    if p.At? {
      var c := Take(src, s, p.done, lengths[0]);
      if c.next.At? {
        assert Usable(s, lengths[0]);
        assert c.next.done > p.done;
        DrainCompletes(src, s, c.next, lengths[1..]);
      }
    }
  }

  predicate EvenAt(p: Progress) {
    p.At? ==> p.done % 2 == 0
  }

  lemma HexTakeIsEven(src: seq<int>, s: Style, offset: nat, length: nat)
    requires ValidStyle(s) && s.hex && |src| % 2 == 0 && offset <= |src| && offset % 2 == 0
    requires forall k :: 0 <= k < |src| ==> !HighItem(src[k])
    ensures CopyCount(src, s, offset, length) % 2 == 0
  {
  }

  /** Hexadecimal chunks are always whole bytes. */
  lemma {:induction false} HexChunksAreWholeBytes(src: seq<int>, s: Style, p: Progress, lengths: seq<nat>, i: nat)
    requires ValidStyle(s) && s.hex && |src| % 2 == 0 && InSource(src, p) && EvenAt(p)
    requires forall k :: 0 <= k < |src| ==> !HighItem(src[k])
    requires i < |Drain(src, s, p, lengths).0|
    ensures |Drain(src, s, p, lengths).0[i].items| % 2 == 0
    decreases |lengths|
  {
    HexTakeIsEven(src, s, p.done, lengths[0]);
    if i > 0 {
      var c := Take(src, s, p.done, lengths[0]);
      HexChunksAreWholeBytes(src, s, c.next, lengths[1..], i - 1);
    }
  }

  /** No cut between a high unit and what follows it. */
  predicate Boundary(src: seq<int>, p: Progress) {
    p.At? && 0 < p.done < |src| ==> !HighItem(src[p.done - 1])
  }

  /** No chunk boundary falls inside a surrogate pair (two high units never follow each other
      in UTF-16). */
  lemma {:induction false} PairsAreNeverSplit(src: seq<int>, s: Style, p: Progress, lengths: seq<nat>)
    requires ValidStyle(s) && s.unit == 2 && !s.hex && InSource(src, p) && Boundary(src, p)
    requires forall k :: 0 <= k < |src| - 1 && HighItem(src[k]) ==> !HighItem(src[k + 1])
    ensures Boundary(src, Drain(src, s, p, lengths).1)
    ensures forall i :: 0 <= i < |Drain(src, s, p, lengths).0| ==> Boundary(src, Drain(src, s, p, lengths).0[i].next)
    decreases |lengths|
  {
    if lengths != [] && p.At? {
      var c := Take(src, s, p.done, lengths[0]);
      PairsAreNeverSplit(src, s, c.next, lengths[1..]);
    }
  }
}
