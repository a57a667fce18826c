/** What a column delivers, byte by byte and character by character, to an application that reads it
    to the end in parts. Items are bytes for narrow and binary targets, UTF-16 units for wide ones. */
module RetrievalContent {
  import opened Options
  import opened MachineWords
  import opened Unicode
  import opened Chunking
  import opened RowReader
  import opened RetrievalRuns

  /** Everything a run of replies delivered. */
  function Items(replies: seq<Reply>): seq<int> {
    if replies == [] then []
    else (if replies[0].Part? then replies[0].chunk.items else []) + Items(replies[1..])
  }

  lemma {:induction false} ItemsOfChunks(replies: seq<Reply>, chunks: seq<Chunk>)
    requires |chunks| <= |replies| && (forall i :: 0 <= i < |chunks| ==> replies[i] == Part(chunks[i]))
    requires forall i :: |chunks| <= i < |replies| ==> !replies[i].Part?
    ensures Items(replies) == Concat(chunks)
    decreases |replies|
  {
    if replies != [] {
      if chunks == [] { ItemsOfChunks(replies[1..], chunks); } else { ItemsOfChunks(replies[1..], chunks[1..]); }
    }
  }

  /** The value of a column as it is delivered, whatever it is. */
  lemma Delivers(row: seq<Column>, st: Standing, col: nat, t: Target, lengths: seq<nat>, src: seq<int>)
    requires 1 <= col <= |row| && !t.Unset? && row[col - 1].cell.Some?
    requires Converted(row[col - 1].kind, t, row[col - 1].cell.value) == Some(src)
    requires StartsOver(st, col) && |lengths| > |src|
    requires forall i :: 0 <= i < |lengths| ==> Usable(StyleOf(row[col - 1].kind, t), lengths[i])
    ensures Items(GetRun(row, st, col, t, lengths).1) == src
  {
    hide Converted, Usable, Take;
    RetrievalConserves(row, st, col, t, lengths, src);
    GetRunIsDrain(row, st, col, t, lengths, src);
    ItemsOfChunks(GetRun(row, st, col, t, lengths).1, Drain(src, StyleOf(row[col - 1].kind, t), At(0), lengths).0);
  }

  predicate AtLeast(lengths: seq<nat>, bytes: nat) { forall i :: 0 <= i < |lengths| ==> lengths[i] >= bytes }

  /** A text column read as SQL_C_CHAR is its own bytes. */
  lemma TextIsItself(row: seq<Column>, st: Standing, col: nat, lengths: seq<nat>, cell: seq<Byte>)
    requires 1 <= col <= |row| && row[col - 1] == Column(Text, Some(cell)) && StartsOver(st, col)
    requires AtLeast(lengths, 2) && |lengths| > |cell|
    ensures var items := Items(GetRun(row, st, col, Narrow, lengths).1);
      |items| == |cell| && forall k :: 0 <= k < |cell| ==> items[k] == cell[k] as int
  {
    Delivers(row, st, col, Narrow, lengths, Bytes(cell));
  }

  /** Any column read as SQL_C_BINARY is its own bytes. */
  lemma RawIsItself(row: seq<Column>, st: Standing, col: nat, lengths: seq<nat>, cell: seq<Byte>)
    requires 1 <= col <= |row| && row[col - 1].cell == Some(cell) && StartsOver(st, col)
    requires AtLeast(lengths, 1) && |lengths| > |cell|
    ensures var items := Items(GetRun(row, st, col, Raw, lengths).1);
      |items| == |cell| && forall k :: 0 <= k < |cell| ==> items[k] == cell[k] as int
  {
    Delivers(row, st, col, Raw, lengths, Bytes(cell));
  }

  /** The value of a hexadecimal digit character. */
  function DigitOf(x: int): Option<int> {
    if 0x30 <= x <= 0x39 then Some(x - 0x30)
    else if 0x61 <= x <= 0x66 then Some(x - 0x61 + 10)
    else None
  }

  /** Two digits for each byte, the high one first. */
  predicate Spells(items: seq<int>, cell: seq<Byte>) {
    && |items| == 2 * |cell|
    && forall k :: 0 <= k < |cell| ==> SpellsByte(items[2 * k], items[2 * k + 1], cell[k])
  }

  predicate SpellsByte(high: int, low: int, b: Byte) {
    DigitOf(high).Some? && DigitOf(low).Some? && 16 * DigitOf(high).value + DigitOf(low).value == b as int
  }

  lemma {:induction false} HexSpells(cell: seq<Byte>)
    ensures Spells(Bytes(Hex(cell)), cell)
  {
    if cell != [] {
      var front, b := cell[..|cell| - 1], cell[|cell| - 1];
      HexSpells(front);
      var items := Bytes(Hex(cell));
      forall k | 0 <= k < |cell| ensures SpellsByte(items[2 * k], items[2 * k + 1], cell[k]) {
        if k < |front| {
          assert items[2 * k] == Bytes(Hex(front))[2 * k] && items[2 * k + 1] == Bytes(Hex(front))[2 * k + 1];
        }
      }
    }
  }

  /** A binary column read as text, narrow or wide, spells its bytes in hexadecimal. */
  lemma BinaryTextIsHex(row: seq<Column>, st: Standing, col: nat, t: Target, lengths: seq<nat>, cell: seq<Byte>)
    requires 1 <= col <= |row| && row[col - 1] == Column(Binary, Some(cell)) && StartsOver(st, col)
    requires (t.Narrow? && AtLeast(lengths, 3)) || (t.WideText? && AtLeast(lengths, 6))
    requires |lengths| > 2 * |cell|
    ensures Spells(Items(GetRun(row, st, col, t, lengths).1), cell)
  {
    HexSpells(cell);
    var hex := Bytes(Hex(cell));
    if t.WideText? {
      AsciiIsWide(Hex(cell));
      assert Units(Wide(Hex(cell)).value) == hex;
    }
    Delivers(row, st, col, t, lengths, hex);
  }

  /** A text column read as SQL_C_WCHAR is the UTF-16 form of its text. */
  lemma WideTextIsUtf16(row: seq<Column>, st: Standing, col: nat, lengths: seq<nat>, points: seq<int>)
    requires forall i :: 0 <= i < |points| ==> IsScalar(points[i])
    requires 1 <= col <= |row| && row[col - 1] == Column(Text, Some(EncodeAll8(points))) && StartsOver(st, col)
    requires AtLeast(lengths, 6) && |lengths| > |EncodeAll16(points)|
    ensures var items := Items(GetRun(row, st, col, WideText, lengths).1);
      |items| == |EncodeAll16(points)| && forall k :: 0 <= k < |items| ==> items[k] == EncodeAll16(points)[k] as int
  {
    WideConverts(points);
    Delivers(row, st, col, WideText, lengths, Units(EncodeAll16(points)));
  }

  // ---- buffers --------------------------------------------------------------------

  /** The bytes of an item of each target, and whether a terminator follows the text. */
  function ItemBytes(t: Target): nat { if t.WideText? then 2 else 1 }

  function TerminatorBytes(t: Target): nat { if t.Raw? then 0 else ItemBytes(t) }

  /** Every part and its terminator fit the buffer, and a part that does not finish the value leaves no
      room for two more items. */
  lemma PartsFillTheBuffer(row: seq<Column>, st: Standing, col: nat, t: Target, length: nat)
    requires 1 <= col <= |row| && !t.Unset? && Get(row, st, col, t, length, true).1.Part?
    ensures var c := Get(row, st, col, t, length, true).1.chunk;
      && (c.items != [] ==> ItemBytes(t) * |c.items| + TerminatorBytes(t) <= length)
      && (!c.next.Complete? ==> ItemBytes(t) * (|c.items| + 2) + TerminatorBytes(t) > length)
  {
    hide Converted;
    if row[col - 1].kind.Binary? && !t.Raw? { HexTextIsPlain(row[col - 1].cell.value, t); }
  }

  /** A part is the last one exactly when it leaves nothing unread and had room for its terminator. */
  lemma LastPartIff(row: seq<Column>, st: Standing, col: nat, t: Target, length: nat)
    requires 1 <= col <= |row| && !t.Unset? && Get(row, st, col, t, length, true).1.Part?
    ensures var c := Get(row, st, col, t, length, true).1.chunk;
      c.next.Complete? <==> ItemBytes(t) * |c.items| == c.indicator && length >= TerminatorBytes(t)
  {
    hide Converted;
  }

  // ---- nulls and changes of type -----------------------------------------------------

  /** A NULL is reported once through the indicator, then SQL_NO_DATA; without an indicator it is an
      error that changes nothing. */
  lemma NullIsReportedOnce(row: seq<Column>, st: Standing, col: nat, t: Target, length: nat, again: int)
    requires 1 <= col <= |row| && !t.Unset? && row[col - 1].cell.None? && StartsOver(st, col)
    ensures var (after, reply) := Get(row, st, col, t, length, true);
      reply.NullCell? && Get(row, after, col, t, again, true) == (after, NoMoreData)
    ensures Get(row, st, col, t, length, false) == (st, Failed)
  {
  }

  /** The target type may not change between the parts of one value. */
  lemma TypeChangeIsRefused(row: seq<Column>, st: Standing, col: nat, t: Target, length: int, indicator: bool)
    requires 1 <= col <= |row| && !t.Unset? && st.column == col && st.target != t
    requires st.progress.At? && st.progress.done > 0
    ensures Get(row, st, col, t, length, indicator) == (st, Failed)
  {
  }
}
