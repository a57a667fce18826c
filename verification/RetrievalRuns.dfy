/** Consecutive SQLGetData calls on one column deliver exactly its value, part by part. */
module RetrievalRuns {
  import opened Options
  import opened Unicode
  import opened Chunking
  import opened RowReader

  function GetRun(row: seq<Column>, st: Standing, col: nat, t: Target, lengths: seq<nat>): (r: (Standing, seq<Reply>))
    requires 1 <= col <= |row| && !t.Unset?
    ensures |r.1| == |lengths|
    decreases |lengths|
  {
    if lengths == [] then (st, [])
    else
      var one := Get(row, st, col, t, lengths[0], true);
      var rest := GetRun(row, one.0, col, t, lengths[1..]);
      (rest.0, [one.1] + rest.1)
  }

  /** The standing a column's retrieval starts from. */
  function Start(st: Standing, col: nat): Progress {
    if st.column == col then st.progress else At(0)
  }

  predicate Continues(st: Standing, col: nat, t: Target) {
    st.column == col ==> st.progress == At(0) || st.target == t
  }

  /** The replies are the chunks of the value, then SQL_NO_DATA for ever. */
  lemma {:induction false} GetRunIsDrain(row: seq<Column>, st: Standing, col: nat, t: Target,
                                         lengths: seq<nat>, src: seq<int>)
    requires 1 <= col <= |row| && !t.Unset? && row[col - 1].cell.Some?
    requires Converted(row[col - 1].kind, t, row[col - 1].cell.value) == Some(src)
    requires Continues(st, col, t) && InSource(src, Start(st, col))
    ensures var d := Drain(src, StyleOf(row[col - 1].kind, t), Start(st, col), lengths);
      var r := GetRun(row, st, col, t, lengths);
      && |d.0| <= |lengths|
      && (forall i :: 0 <= i < |d.0| ==> r.1[i] == Part(d.0[i]))
      && (forall i :: |d.0| <= i < |lengths| ==> r.1[i].NoMoreData?)
      && (lengths != [] ==> Start(r.0, col) == d.1)
    decreases |lengths|
  {
    hide Converted, Take;
    if lengths != [] {
      var one := Get(row, st, col, t, lengths[0], true);
      GetRunIsDrain(row, one.0, col, t, lengths[1..], src);
    }
  }

  /** Binary, hexadecimal, narrow and wide values all arrive complete and in order: with enough
      usable buffers the parts concatenate to the value and the next call reports SQL_NO_DATA. */
  lemma RetrievalConserves(row: seq<Column>, st: Standing, col: nat, t: Target, lengths: seq<nat>, src: seq<int>)
    requires 1 <= col <= |row| && !t.Unset? && row[col - 1].cell.Some?
    requires Converted(row[col - 1].kind, t, row[col - 1].cell.value) == Some(src)
    requires StartsOver(st, col) && |lengths| > |src|
    requires forall i :: 0 <= i < |lengths| ==> Usable(StyleOf(row[col - 1].kind, t), lengths[i])
    ensures var d := Drain(src, StyleOf(row[col - 1].kind, t), At(0), lengths);
      && Concat(d.0) == src && |d.0| <= |lengths|
      && (forall i :: 0 <= i < |d.0| ==> GetRun(row, st, col, t, lengths).1[i] == Part(d.0[i]))
    ensures Get(row, GetRun(row, st, col, t, lengths).0, col, t, 0, true).1.NoMoreData?
  {
    var style := StyleOf(row[col - 1].kind, t);
    GetRunIsDrain(row, st, col, t, lengths, src);
    DrainCompletes(src, style, At(0), lengths);
    DrainConserves(src, style, At(0), lengths);
  }

  /** Hexadecimal text, narrow or wide, has two plain characters for each byte. */
  lemma HexTextIsPlain(cell: seq<Byte>, t: Target)
    requires t.Narrow? || t.WideText?
    ensures Converted(Binary, t, cell).Some?
    ensures var src := Converted(Binary, t, cell).value;
      |src| == 2 * |cell| && forall k :: 0 <= k < |src| ==> !HighItem(src[k])
  {
    if t.WideText? { AsciiIsWide(Hex(cell)); }
  }

  /** Converted wide text never has two high surrogates in a row. */
  lemma WideTextAlternates(kind: Kind, cell: seq<Byte>, src: seq<int>)
    requires Converted(kind, WideText, cell) == Some(src)
    ensures forall k :: 0 <= k < |src| - 1 && HighItem(src[k]) ==> !HighItem(src[k + 1])
  {
    if kind.Binary? { HexTextIsPlain(cell, WideText); }
    else {
      WideIsPaired(cell);
      var w := Wide(cell).value;
      forall k | 0 <= k < |src| - 1 && HighItem(src[k]) ensures !HighItem(src[k + 1]) {
        assert IsHigh(w[k]);
      }
    }
  }

  /** Without a convertible value no call returns a part. */
  lemma {:induction false} NoValueNoPart(row: seq<Column>, st: Standing, col: nat, t: Target, lengths: seq<nat>, i: nat)
    requires 1 <= col <= |row| && !t.Unset? && i < |lengths|
    requires row[col - 1].cell.None? || Converted(row[col - 1].kind, t, row[col - 1].cell.value).None?
    ensures !GetRun(row, st, col, t, lengths).1[i].Part?
    decreases |lengths|
  {
    hide Converted;
    var one := Get(row, st, col, t, lengths[0], true);
    if i > 0 { NoValueNoPart(row, one.0, col, t, lengths[1..], i - 1); }
  }

  /** A standing from which a retrieval of this column starts over. */
  predicate StartsOver(st: Standing, col: nat) { st.column != col || st.progress == At(0) }

  /** On every binary column read as text, every part is whole bytes. */
  lemma PartsAreWholeBytes(row: seq<Column>, st: Standing, col: nat, t: Target, lengths: seq<nat>, i: nat)
    requires 1 <= col <= |row| && row[col - 1].kind.Binary? && (t.Narrow? || t.WideText?)
    requires StartsOver(st, col) && i < |lengths| && GetRun(row, st, col, t, lengths).1[i].Part?
    ensures |GetRun(row, st, col, t, lengths).1[i].chunk.items| % 2 == 0
  {
    hide Converted, Take;
    if row[col - 1].cell.None? {
      NoValueNoPart(row, st, col, t, lengths, i);
    } else {
      var cell := row[col - 1].cell.value;
      HexTextIsPlain(cell, t);
      var src := Converted(Binary, t, cell).value;
      GetRunIsDrain(row, st, col, t, lengths, src);
      HexChunksAreWholeBytes(src, StyleOf(Binary, t), At(0), lengths, i);
    }
  }

  /** On every column read as wide text, no part ends inside a surrogate pair. */
  lemma PartsEndBetweenCharacters(row: seq<Column>, st: Standing, col: nat, lengths: seq<nat>, i: nat)
    requires 1 <= col <= |row| && StartsOver(st, col) && i < |lengths|
    requires GetRun(row, st, col, WideText, lengths).1[i].Part?
    ensures row[col - 1].cell.Some? && Converted(row[col - 1].kind, WideText, row[col - 1].cell.value).Some?
    ensures var src := Converted(row[col - 1].kind, WideText, row[col - 1].cell.value).value;
      Boundary(src, GetRun(row, st, col, WideText, lengths).1[i].chunk.next)
  {
    hide Converted, Take;
    var kind := row[col - 1].kind;
    if row[col - 1].cell.None? || Converted(kind, WideText, row[col - 1].cell.value).None? {
      NoValueNoPart(row, st, col, WideText, lengths, i);
    } else {
      var src := Converted(kind, WideText, row[col - 1].cell.value).value;
      GetRunIsDrain(row, st, col, WideText, lengths, src);
      if kind.Binary? {
        HexTextIsPlain(row[col - 1].cell.value, WideText);
        ChunkStaysInside(src, StyleOf(kind, WideText), At(0), lengths, i);
      } else {
        WideTextAlternates(kind, row[col - 1].cell.value, src);
        PairsAreNeverSplit(src, StyleOf(kind, WideText), At(0), lengths);
      }
    }
  }

  lemma {:induction false} ChunkStaysInside(src: seq<int>, s: Style, p: Progress, lengths: seq<nat>, i: nat)
    requires ValidStyle(s) && InSource(src, p) && i < |Drain(src, s, p, lengths).0|
    ensures InSource(src, Drain(src, s, p, lengths).0[i].next)
    decreases |lengths|
  {
    if i > 0 { ChunkStaysInside(src, s, Take(src, s, p.done, lengths[0]).next, lengths[1..], i - 1); }
  }

  /** The items that the first i replies delivered. */
  function Delivered(replies: seq<Reply>, i: nat): nat
    requires i <= |replies|
  {
    if i == 0 then 0
    else Delivered(replies, i - 1) + if replies[i - 1].Part? then |replies[i - 1].chunk.items| else 0
  }

  lemma {:induction false} DeliveredIsCopied(chunks: seq<Chunk>, replies: seq<Reply>, i: nat)
    requires i <= |chunks| <= |replies| && forall k :: 0 <= k < |chunks| ==> replies[k] == Part(chunks[k])
    ensures Delivered(replies, i) == CopiedBefore(chunks, i)
  {
    if i > 0 {
      DeliveredIsCopied(chunks, replies, i - 1);
      ConcatAppends(chunks[..i - 1], [chunks[i - 1]]);
      assert chunks[..i] == chunks[..i - 1] + [chunks[i - 1]];
      assert Concat([chunks[i - 1]]) == chunks[i - 1].items;
    }
  }

  /** Every part's indicator is the number of bytes unread when its call was made. */
  lemma PartsReportUnread(row: seq<Column>, st: Standing, col: nat, t: Target, lengths: seq<nat>, i: nat, src: seq<int>)
    requires 1 <= col <= |row| && !t.Unset? && row[col - 1].cell.Some?
    requires Converted(row[col - 1].kind, t, row[col - 1].cell.value) == Some(src)
    requires StartsOver(st, col) && i < |lengths| && GetRun(row, st, col, t, lengths).1[i].Part?
    ensures var replies := GetRun(row, st, col, t, lengths).1;
      && Delivered(replies, i) <= |src|
      && replies[i].chunk.indicator == BytesOf(StyleOf(row[col - 1].kind, t), |src| - Delivered(replies, i))
  {
    hide Converted, Take;
    var style := StyleOf(row[col - 1].kind, t);
    GetRunIsDrain(row, st, col, t, lengths, src);
    IndicatorIsUnread(src, style, At(0), lengths, i);
    DeliveredIsCopied(Drain(src, style, At(0), lengths).0, GetRun(row, st, col, t, lengths).1, i);
  }

  /** Reading another column abandons a partial retrieval: the next call starts over. */
  lemma OtherColumnRestarts(row: seq<Column>, st: Standing, col: nat, other: nat, t: Target, u: Target, length: int)
    requires 1 <= col <= |row| && 1 <= other <= |row| && col != other && !t.Unset? && !u.Unset?
    requires var r := Get(row, st, other, u, length, true); r.1.Part? || r.1.NullCell?
    ensures Start(Get(row, st, other, u, length, true).0, col) == At(0)
  {
  }

  // ---- bookmarks ------------------------------------------------------------------

  const PLAIN := Style(1, false, false)

  predicate BookmarkReady(st: Standing) {
    st.column == 0 && st.target.Raw? ==> st.progress.At? && st.progress.done <= BOOKMARK_BYTES
  }

  function BookmarkStart(st: Standing): Progress
    requires BookmarkReady(st)
  {
    if st.column == 0 && st.target.Raw? then
      (if st.progress.done == BOOKMARK_BYTES then Complete else st.progress)
    else At(0)
  }

  function BookmarkRun(st: Standing, token: seq<int>, lengths: seq<nat>): (r: (Standing, seq<Reply>))
    requires |token| == BOOKMARK_BYTES && BookmarkReady(st)
    ensures |r.1| == |lengths| && BookmarkReady(r.0)
    decreases |lengths|
  {
    if lengths == [] then (st, [])
    else
      var one := GetBookmark(st, token, lengths[0]);
      var rest := BookmarkRun(one.0, token, lengths[1..]);
      (rest.0, [one.1] + rest.1)
  }

  /** A bookmark token is delivered like any other value. */
  lemma {:induction false} BookmarkRunIsDrain(st: Standing, token: seq<int>, lengths: seq<nat>)
    requires |token| == BOOKMARK_BYTES && BookmarkReady(st)
    ensures var d := Drain(token, PLAIN, BookmarkStart(st), lengths);
      var r := BookmarkRun(st, token, lengths);
      && |d.0| <= |lengths|
      && (forall i :: 0 <= i < |d.0| ==> r.1[i] == Part(d.0[i]))
      && (forall i :: |d.0| <= i < |lengths| ==> r.1[i].NoMoreData?)
      && (lengths != [] ==> BookmarkStart(r.0) == d.1)
    decreases |lengths|
  {
    if lengths != [] {
      var one := GetBookmark(st, token, lengths[0]);
      BookmarkRunIsDrain(one.0, token, lengths[1..]);
    }
  }
}
