/** SQLGetData on one selected row: the narrow, binary, hexadecimal, whole-conversion wide and
    streaming wide paths, and the bookmark column, sharing one piece of retrieval state. */
module RowReader {
  import opened Options
  import opened MachineWords
  import opened Unicode
  import opened Chunking

  /** SQL_C_CHAR, SQL_C_WCHAR, SQL_C_BINARY; a bookmark is retrieved as SQL_C_BINARY. */
  datatype Target = Unset | Narrow | WideText | Raw

  datatype Kind = Text | Binary

  datatype Column = Column(kind: Kind, cell: Option<seq<Byte>>)

  const BOOKMARK_BYTES: nat := 24
  const COMPLETE: Size := SIZE_MAX as Size
  const WIDE_LIMIT: int := SQLLEN_MAX / 2

  function Bytes(s: seq<Byte>): seq<int> {
    seq(|s|, i requires 0 <= i < |s| => s[i] as int)
  }

  function Units(s: seq<Unit>): seq<int> {
    seq(|s|, i requires 0 <= i < |s| => s[i] as int)
  }

  function HexDigit(n: int): Byte
    requires 0 <= n < 16
  {
    (if n < 10 then 0x30 + n else 0x57 + n) as Byte
  }

  function Hex(s: seq<Byte>): (h: seq<Byte>)
    ensures |h| == 2 * |s|
    ensures forall i :: 0 <= i < |h| ==> h[i] < 0x80
  {
    if s == [] then []
    else Hex(s[..|s| - 1]) + [HexDigit(s[|s| - 1] as int / 16), HexDigit(s[|s| - 1] as int % 16)]
  }

  function StyleOf(kind: Kind, target: Target): (s: Style)
    ensures ValidStyle(s)
  {
    Style(if target.WideText? then 2 else 1, !target.Raw?, kind.Binary? && !target.Raw?)
  }

  /** The complete converted value of a cell. */
  function Converted(kind: Kind, target: Target, cell: seq<Byte>): (src: Option<seq<int>>) {
    match target
    case WideText =>
      (match Wide(if kind.Binary? then Hex(cell) else cell)
       case None => None
       case Some(w) => Some(Units(w)))
    case Narrow => Some(Bytes(if kind.Binary? then Hex(cell) else cell))
    case _ => Some(Bytes(cell))
  }

  lemma {:induction false} AsciiIsWide(s: seq<Byte>)
    requires forall i :: 0 <= i < |s| ==> s[i] < 0x80
    ensures Wide(s).Some? && |Wide(s).value| == |s|
    ensures forall i :: 0 <= i < |s| ==> Wide(s).value[i] as int == s[i] as int
    decreases |s|
  {
    if s != [] {
      assert s[1..1] == [];
      assert Decode(s) == Some(Decoded(s[0] as int, 1));
      AsciiIsWide(s[1..]);
    }
  }

  /** Converted values stay below the marker of a complete retrieval. */
  lemma ConvertedFits(kind: Kind, t: Target, cell: seq<Byte>)
    requires |cell| <= SQLLEN_MAX
    ensures Converted(kind, t, cell).Some? ==> |Converted(kind, t, cell).value| < SIZE_MAX
  {
  }

  /** Where a retrieval stands: which column, how far, as which type. */
  datatype Standing = Standing(column: nat, progress: Progress, target: Target)

  datatype Reply = NoMoreData | Failed | NullCell | Part(chunk: Chunk)

  /** One call on a column that holds a value, by whole-cell conversion. */
  function GetCell(kind: Kind, cell: seq<Byte>, st: Standing, col: nat, target: Target, start: nat, length: nat)
    : (Standing, Reply)
  {
    match Converted(kind, target, cell)
    case None => (st, Failed)
    case Some(src) =>
      if start > |src| then (st, Failed)
      else
        var chunk := Take(src, StyleOf(kind, target), start, length);
        (Standing(col, chunk.next, target), Part(chunk))
  }

  /** SQLGetData by whole-cell conversion, for a column 1..|row|. */
  function Get(row: seq<Column>, st: Standing, col: nat, target: Target, length: int, indicator: bool): (Standing, Reply)
    requires 1 <= col <= |row| && !target.Unset?
  {
    var progress := if st.column == col then st.progress else At(0);
    if progress.Complete? then (st, NoMoreData)
    else if st.column == col && progress != At(0) && st.target != target then (st, Failed)
    else if length < 0 then (st, Failed)
    else match row[col - 1].cell
      case None => if indicator then (Standing(col, Complete, target), NullCell) else (st, Failed)
      case Some(cell) => GetCell(row[col - 1].kind, cell, st, col, target, progress.done, length)
  }

  /** Only the streaming path bounds the length it can report. */
  predicate Reportable(row: seq<Column>, col: nat, target: Target)
    requires 1 <= col <= |row|
  {
    row[col - 1].kind.Text? && target.WideText? && row[col - 1].cell.Some? ==>
      Wide(row[col - 1].cell.value).None? || |Wide(row[col - 1].cell.value).value| <= WIDE_LIMIT
  }

  /** The bookmark column: a 24-byte token that is complete at its length. */
  function GetBookmark(st: Standing, token: seq<int>, length: int): (Standing, Reply)
    requires |token| == BOOKMARK_BYTES
    requires st.column == 0 && st.target.Raw? ==> st.progress.At?
  {
    if length < 0 then (st, Failed)
    else
      var offset := if st.column == 0 && st.target.Raw? then st.progress.done else 0;
      if offset >= BOOKMARK_BYTES then (st, NoMoreData)
      else
        var chunk := Take(token, Style(1, false, false), offset, length);
        (Standing(0, At(Reached(token, chunk.next)), Raw), Part(chunk))
  }

  // ---- streaming ------------------------------------------------------------------

  datatype WideState = WideState(bytePosition: nat, remainingUnits: nat, valid: bool)

  /** The counters describe the unread suffix of the cell. */
  ghost predicate Describes(w: WideState, cell: seq<Byte>, offset: nat) {
    && w.valid && w.bytePosition <= |cell|
    && Wide(cell).Some? && Wide(cell[w.bytePosition..]).Some?
    && w.remainingUnits == |Wide(cell[w.bytePosition..]).value|
    && offset <= |Wide(cell).value|
    && Wide(cell).value[offset..] == Wide(cell[w.bytePosition..]).value
    && |Wide(cell).value| <= WIDE_LIMIT
  }

  /** Validates the cell and counts its units. */
  method CountUnits(cell: seq<Byte>) returns (units: Option<nat>)
    ensures units.Some? <==> Wide(cell).Some? && |Wide(cell).value| <= WIDE_LIMIT
    ensures units.Some? ==> units.value == |Wide(cell).value|
  {
    var scan, count := 0, 0;
    assert cell[0..] == cell;
    while scan < |cell|
      invariant 0 <= scan <= |cell| && 0 <= count <= WIDE_LIMIT
      invariant Wide(cell).Some? <==> Wide(cell[scan..]).Some?
      invariant Wide(cell).Some? ==> |Wide(cell).value| == count + |Wide(cell[scan..]).value|
      decreases |cell| - scan
    {
      var point, next := NextCodePoint(cell, scan);
      if point.None? {
        return None;
      }
      assert cell[scan..][next - scan..] == cell[next..];
      var width := if point.value > 0xFFFF then 2 else 1;
      if count > WIDE_LIMIT - width {
        return None;
      }
      count := count + width;
      scan := next;
    }
    return Some(count);
  }

  lemma WideUnfolds(cell: seq<Byte>, position: nat)
    requires position < |cell| && Wide(cell[position..]).Some?
    ensures Decode(cell[position..]).Some?
    ensures var d := Decode(cell[position..]).value;
      && position + d.width <= |cell| && Wide(cell[position + d.width..]).Some?
      && Wide(cell[position..]).value == Utf16(d.point) + Wide(cell[position + d.width..]).value
  {
    var d := Decode(cell[position..]).value;
    assert cell[position..][d.width..] == cell[position + d.width..];
  }

  /** The next code point of a valid suffix, as UTF-16. */
  method NextUnits(cell: seq<Byte>, position: nat, ghost rest: seq<Unit>)
    returns (scalar: seq<Unit>, next: nat, ghost rest': seq<Unit>)
    requires position < |cell| && Wide(cell[position..]) == Some(rest)
    ensures position < next <= |cell| && Wide(cell[next..]) == Some(rest')
    ensures rest == scalar + rest' && 1 <= |scalar| <= 2
    ensures !IsHigh(scalar[|scalar| - 1]) && (|scalar| == 2 ==> IsHigh(scalar[0]))
  {
    hide Wide, Decode;
    WideUnfolds(cell, position);
    var point;
    point, next := NextCodePoint(cell, position);
    scalar, rest' := Utf16(point.value), Wide(cell[next..]).value;
  }

  /** Copies whole code points while they fit. */
  method StreamUnits(cell: seq<Byte>, start: nat, capacity: nat, ghost whole: seq<Unit>)
    returns (units: seq<Unit>, position: nat, ghost rest: seq<Unit>)
    requires start <= |cell| && Wide(cell[start..]) == Some(whole)
    ensures start <= position <= |cell| && Wide(cell[position..]) == Some(rest)
    ensures whole == units + rest && |units| <= capacity
    ensures units != [] ==> !IsHigh(units[|units| - 1])
    ensures |units| == capacity || rest == [] || (|units| + 1 == capacity && |rest| >= 2 && IsHigh(rest[0]))
  {
    hide Wide;
    units, position, rest := [], start, whole;
    while position < |cell| && |units| < capacity
      invariant start <= position <= |cell| && Wide(cell[position..]) == Some(rest)
      invariant whole == units + rest && |units| <= capacity
      invariant units != [] ==> !IsHigh(units[|units| - 1])
      decreases |cell| - position
    {
      var scalar, next, rest' := NextUnits(cell, position, rest);
      if |scalar| > capacity - |units| {
        break;
      }
      assert units + (scalar + rest') == units + scalar + rest';
      units, position, rest := units + scalar, next, rest';
    }
  }

  /** The streamed units are exactly the chunk of the whole conversion. */
  lemma StreamIsChunk(whole: seq<Unit>, offset: nat, units: seq<Unit>, rest: seq<Unit>, length: nat)
    requires offset <= |whole| && whole[offset..] == units + rest
    requires var capacity := Capacity(Style(2, true, false), length);
      && |units| <= capacity
      && (units != [] ==> !IsHigh(units[|units| - 1]))
      && (|units| == capacity || rest == [] || (|units| + 1 == capacity && |rest| >= 2 && IsHigh(rest[0])))
    ensures CopyCount(Units(whole), Style(2, true, false), offset, length) == |units|
    ensures Units(units) == Units(whole)[offset..offset + |units|]
  {
    var n := |units|;
    assert whole[offset..offset + n] == whole[offset..][..n] == units;
    assert |whole| - offset == n + |rest|;
    if n > 0 {
      assert whole[offset + n - 1] == units[n - 1];
    }
    if rest != [] {
      assert whole[offset + n] == whole[offset..][n] == rest[0];
    }
  }

  /** How many items a call copies: what fits, whole bytes of hexadecimal text, no half of a pair. */
  method CopyAmount(src: seq<int>, style: Style, start: nat, units: nat, length: nat) returns (copy: nat)
    requires ValidStyle(style) && start <= |src| && units == UnitsIn(style, length)
    ensures copy == CopyCount(src, style, start, length)
  {
    hide UnitsIn;
    var remaining := |src| - start;
    var capacity := if !style.terminated then units else if units > 0 then units - 1 else 0;
    copy := if capacity <= remaining then capacity else remaining;
    if style.hex && copy < remaining {
      copy := copy - copy % 2;
    }
    if style.unit == 2 && copy < remaining && copy > 0 && HighItem(src[start + copy - 1]) {
      copy := copy - 1;
    }
  }

  /** The copy arithmetic of the paths that hold the whole converted value. */
  method CopyChunk(src: seq<int>, style: Style, start: nat, length: nat) returns (chunk: Chunk)
    requires ValidStyle(style) && start <= |src|
    ensures chunk == Take(src, style, start, length)
  {
    hide CopyCount;
    var remaining := |src| - start;
    var units := if style.unit == 2 then length / 2 else length;
    var copy := CopyAmount(src, style, start, units, length);
    chunk := Chunk(src[start..start + copy], if style.unit == 2 then 2 * remaining else remaining,
      if start + copy < |src| || (style.terminated && units == 0) then At(start + copy) else Complete);
  }

  /** One streaming step from a described position. */
  method StreamChunk(cell: seq<Byte>, w: WideState, start: nat, length: nat) returns (chunk: Chunk, w': WideState)
    requires Describes(w, cell, start)
    ensures chunk == Take(Units(Wide(cell).value), Style(2, true, false), start, length)
    ensures chunk.next.At? ==> Describes(w', cell, chunk.next.done)
  {
    hide Wide;
    ghost var whole := Wide(cell).value;
    var remaining := w.remainingUnits;
    var bufferUnits := length / 2;
    var capacity := if bufferUnits > 0 then bufferUnits - 1 else 0;
    var units, position, rest := StreamUnits(cell, w.bytePosition, capacity, whole[start..]);
    StreamIsChunk(whole, start, units, rest, length);
    assert whole[start + |units|..] == whole[start..][|units|..] == rest;
    w' := WideState(position, remaining - |units|, true);
    chunk := Chunk(Units(units), remaining * 2,
      if w'.remainingUnits != 0 || bufferUnits == 0 then At(start + |units|) else Complete);
  }

  // ---- the retrieval state of a statement -----------------------------------------

  class Reader {
    const row: seq<Column>
    var column: nat
    var offset: Size
    var target: Target
    var wide: WideState

    ghost function State(): Standing
      reads this
    {
      Standing(column, if offset == COMPLETE then Complete else At(offset as nat), target)
    }

    ghost predicate RowFits()
      reads this
    {
      forall c :: 0 <= c < |row| && row[c].cell.Some? ==> |row[c].cell.value| <= SQLLEN_MAX
    }

    /** A streaming retrieval in progress is described by its counters, whatever other columns
        were read before it. */
    ghost predicate Valid()
      reads this
    {
      && RowFits() && column <= |row|
      && (column == 0 ==> offset as int <= BOOKMARK_BYTES)
      && (column > 0 && row[column - 1].kind.Text? && target.WideText? && offset != COMPLETE ==>
            row[column - 1].cell.Some? && Describes(wide, row[column - 1].cell.value, offset as nat))
    }

    constructor (row: seq<Column>)
      requires forall c :: 0 <= c < |row| && row[c].cell.Some? ==> |row[c].cell.value| <= SQLLEN_MAX
      ensures Valid() && this.row == row && State() == Standing(0, At(0), Unset)
    {
      this.row := row;
      column, offset, target, wide := 0, 0, Unset, WideState(0, 0, false);
    }

    method SaveOffset(col: nat, next: Progress, t: Target)
      requires next.At? ==> next.done < SIZE_MAX
      modifies this`column, this`offset, this`target
      ensures State() == Standing(col, next, t)
    {
      column, target := col, t;
      offset := if next.Complete? then COMPLETE else next.done as Size;
    }

    /** Text retrieved as SQL_C_WCHAR: code points are decoded as they are copied, and only two
        counters survive between calls. */
    method CopyStreaming(col: nat, cell: seq<Byte>, start: nat, length: nat) returns (reply: Reply)
      requires Valid() && 1 <= col <= |row| && row[col - 1] == Column(Text, Some(cell))
      requires start == if column == col then offset as nat else 0
      requires column == col ==> offset != COMPLETE && (offset == 0 || target.WideText?)
      modifies this
      ensures Valid()
      ensures if Wide(cell).None? || |Wide(cell).value| > WIDE_LIMIT
        then reply.Failed? && State() == old(State())
        else var src := Units(Wide(cell).value);
          && start <= |src|
          && reply == Part(Take(src, Style(2, true, false), start, length))
          && State() == Standing(col, Take(src, Style(2, true, false), start, length).next, WideText)
    {
      hide Wide, Take;
      var w := wide;
      if !wide.valid || column != col || !target.WideText? {
        var units := CountUnits(cell);
        if units.None? {
          return Failed;
        }
        assert cell[0..] == cell;
        w := WideState(0, units.value, true);
      }
      assert Describes(w, cell, start);
      var chunk;
      chunk, wide := StreamChunk(cell, w, start, length);
      SaveOffset(col, chunk.next, WideText);
      return Part(chunk);
    }

    /** The paths that convert the whole cell first. */
    method CopyWhole(col: nat, t: Target, cell: seq<Byte>, start: nat, length: nat) returns (reply: Reply)
      requires Valid() && 1 <= col <= |row| && !t.Unset? && row[col - 1].cell == Some(cell)
      requires !(t.WideText? && row[col - 1].kind.Text?)
      modifies this
      ensures Valid()
      ensures (State(), reply) == GetCell(row[col - 1].kind, cell, old(State()), col, t, start, length)
    {
      hide Converted, Take, Describes;
      var kind := row[col - 1].kind;
      ConvertedFits(kind, t, cell);
      var src := Converted(kind, t, cell);
      if src.None? || start > |src.value| {
        return Failed;
      }
      var chunk := CopyChunk(src.value, StyleOf(kind, t), start, length);
      SaveOffset(col, chunk.next, t);
      return Part(chunk);
    }

    /** `get_data` once the requested column is known to hold a value. */
    method GetValue(col: nat, t: Target, cell: seq<Byte>, start: nat, length: nat) returns (reply: Reply)
      requires Valid() && 1 <= col <= |row| && !t.Unset? && row[col - 1].cell == Some(cell)
      requires start == if column == col then offset as nat else 0
      requires column == col ==> offset != COMPLETE && (offset == 0 || target == t)
      modifies this
      ensures Valid()
      ensures Reportable(row, col, t) ==>
        (State(), reply) == GetCell(row[col - 1].kind, cell, old(State()), col, t, start, length)
      ensures !Reportable(row, col, t) ==> State() == old(State()) && reply.Failed?
    {
      var kind := row[col - 1].kind;
      if t.WideText? && kind.Text? {
        reply := CopyStreaming(col, cell, start, length);
        return;
      }
      reply := CopyWhole(col, t, cell, start, length);
    }

    /** `get_data` for columns of the row. For every reportable cell it answers exactly like a
        conversion of the whole cell at every call, in every order of columns, types and buffer
        lengths; a longer text cell is refused without any change. */
    method GetData(col: nat, t: Target, length: int, indicator: bool) returns (reply: Reply)
      requires Valid() && 1 <= col <= |row| && !t.Unset?
      modifies this
      ensures Valid()
      ensures Reportable(row, col, t) ==> (State(), reply) == Get(row, old(State()), col, t, length, indicator)
      ensures !Reportable(row, col, t) ==> State() == old(State()) && (reply.Failed? || reply.NoMoreData?)
    {
      if column == col && offset == COMPLETE {
        return NoMoreData;
      }
      if column == col && offset != 0 && target != t {
        return Failed;
      }
      if length < 0 {
        return Failed;
      }
      if row[col - 1].cell.None? {
        if !indicator {
          return Failed;
        }
        SaveOffset(col, Complete, t);
        return NullCell;
      }
      reply := GetValue(col, t, row[col - 1].cell.value, if column == col then offset as nat else 0, length);
    }

    /** `get_bookmark_data` for variable bookmarks. */
    method GetBookmarkData(token: seq<int>, length: int) returns (reply: Reply)
      requires Valid() && |token| == BOOKMARK_BYTES
      modifies this
      ensures Valid() && (State(), reply) == GetBookmark(old(State()), token, length)
    {
      if length < 0 {
        return Failed;
      }
      var start: nat := if column == 0 && target.Raw? then offset as nat else 0;
      if start >= BOOKMARK_BYTES {
        return NoMoreData;
      }
      var count := if BOOKMARK_BYTES - start <= length then BOOKMARK_BYTES - start else length;
      reply := Part(Chunk(token[start..start + count], BOOKMARK_BYTES - start,
                          if count < BOOKMARK_BYTES - start then At(start + count) else Complete));
      SaveOffset(0, At(start + count), Raw);
      wide := WideState(0, 0, false);
    }
  }
}
