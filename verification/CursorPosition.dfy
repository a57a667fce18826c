/** Rowset positioning of `ODBCStatement::fetch_impl` on a static cursor, against the
    "Cursor Positioning Rules" of the SQLFetchScroll function in the Microsoft ODBC
    Programmer's Reference. */
module CursorPosition {
  import opened MachineWords

  datatype Orientation = Next | Prior | First | Last | Absolute | Relative | Bookmark

  datatype StaticPosition = BeforeStart | OnRowset | AfterEnd

  /** Where the cursor is before the call; rows are numbered from 1. */
  datatype Where = Before | At(first: int) | After

  /** Where the rules put it; `overlap` is the 01S06 footnote. */
  datatype Landing = ToBefore | ToRow(first: int, overlap: bool) | ToAfter

  function Magnitude(offset: int): int {
    if offset < 0 then -offset else offset
  }

  /** One function per table; `last` is LastResultRow, `rowset` the size of this call. */
  function NextRule(cur: Where, last: int, oldRowset: int): Landing {
    match cur
    case Before => ToRow(1, false)
    case At(first) =>
      if first + oldRowset <= last then ToRow(first + oldRowset, false) else ToAfter
    case After => ToAfter
  }

  function PriorRule(cur: Where, last: int, rowset: int): Landing {
    match cur
    case Before => ToBefore
    case At(first) =>
      if first == 1 then ToBefore
      else if first <= rowset then ToRow(1, true)
      else ToRow(first - rowset, false)
    case After =>
      if last < rowset then ToRow(1, true) else ToRow(last - rowset + 1, false)
  }

  function AbsoluteRule(offset: int, last: int, rowset: int): Landing {
    if offset < 0 && Magnitude(offset) <= last then ToRow(last + offset + 1, false)
    else if offset < 0 && Magnitude(offset) > rowset then ToBefore
    else if offset < 0 then ToRow(1, true)
    else if offset == 0 then ToBefore
    else if offset <= last then ToRow(offset, false)
    else ToAfter
  }

  function RelativeRule(cur: Where, offset: int, last: int, rowset: int): Landing {
    match cur
    case Before => if offset > 0 then AbsoluteRule(offset, last, rowset) else ToBefore
    case After => if offset < 0 then AbsoluteRule(offset, last, rowset) else ToAfter
    case At(first) =>
      if first == 1 && offset < 0 then ToBefore
      else if first + offset < 1 && Magnitude(offset) > rowset then ToBefore
      else if first + offset < 1 then ToRow(1, true)
      else if first + offset <= last then ToRow(first + offset, false)
      else ToAfter
  }

  function BookmarkRule(bookmark: int, offset: int, last: int): Landing {
    if bookmark + offset < 1 then ToBefore
    else if bookmark + offset <= last then ToRow(bookmark + offset, false)
    else ToAfter
  }

  /** The tables speak of results that have rows. On an empty result the driver never
      lands on a row: it stays before the start only for a request that points there. */
  function EmptyRule(o: Orientation, cur: Where, offset: int): Landing {
    match o
    case Prior => if cur.Before? then ToBefore else ToAfter
    case Absolute => if offset <= 0 then ToBefore else ToAfter
    case Relative =>
      if cur.Before? then (if offset > 0 then ToAfter else ToBefore)
      else (if offset < 0 then ToBefore else ToAfter)
    case _ => ToAfter
  }

  function Rule(o: Orientation, cur: Where, offset: int, last: int, rowset: int, oldRowset: int,
                bookmark: int): Landing
  {
    if last == 0 then EmptyRule(o, cur, offset)
    else match o
      case Next => NextRule(cur, last, oldRowset)
      case Prior => PriorRule(cur, last, rowset)
      case First => ToRow(1, false)
      case Last => ToRow(if rowset <= last then last - rowset + 1 else 1, false)
      case Absolute => AbsoluteRule(offset, last, rowset)
      case Relative => RelativeRule(cur, offset, last, rowset)
      case Bookmark => BookmarkRule(bookmark, offset, last)
  }

  predicate Sequential(o: Orientation) {
    o.Next? || o.Prior? || o.Relative?
  }

  function WhereOf(position: StaticPosition, currentRow: int): Where {
    match position
    case BeforeStart => Before
    case OnRowset => At(currentRow)
    case AfterEnd => After
  }

  function LandingOf(target: StaticPosition, start: int, overlap: bool): Landing {
    match target
    case BeforeStart => ToBefore
    case OnRowset => ToRow(start + 1, overlap)
    case AfterEnd => ToAfter
  }

  /** The `absolute` closure of `fetch_impl`, shared by ABSOLUTE and two RELATIVE cases. */
  method PositionAbsolute(offset: SqlLen, magnitude: Size, total: Size, size: Size)
    returns (target: StaticPosition, start: Size, overlap: bool)
    requires magnitude as int == Magnitude(offset as int)
    ensures total != 0 ==>
      LandingOf(target, start as int, overlap) == AbsoluteRule(offset as int, total as int, size as int)
    ensures total == 0 ==> target == (if offset <= 0 then BeforeStart else AfterEnd)
    ensures target.OnRowset? ==> start < total
  {
    target, start, overlap := BeforeStart, 0, false;
    if offset == 0 {
      target := BeforeStart;
    } else if offset > 0 {
      if magnitude > total {
        target := AfterEnd;
      } else {
        target := OnRowset;
        start := magnitude - 1;
      }
    } else if magnitude <= total {
      target := OnRowset;
      start := total - magnitude;
    } else if magnitude <= size && total != 0 {
      target, start, overlap := OnRowset, 0, true;
    } else {
      target := BeforeStart;
    }
  }

  /** The static branch of `fetch_impl` in its own unsigned arithmetic: for every total,
      old and new rowset size, position and signed offset, including the smallest SQLLEN,
      it lands exactly where the tables say, with the same 01S06 flag. */
  method PositionStatic(o: Orientation, offset: SqlLen, total: Size, size: Size, oldSize: Size,
                        position: StaticPosition, currentRow: Size, bookmarkRow: Size)
    returns (target: StaticPosition, start: Size, overlap: bool)
    requires size != 0
    requires Sequential(o) && position.OnRowset? ==> 1 <= currentRow <= total
    requires o.Bookmark? ==> bookmarkRow < total
    ensures LandingOf(target, start as int, overlap)
         == Rule(o, WhereOf(position, currentRow as int), offset as int, total as int,
                 size as int, oldSize as int, bookmarkRow as int + 1)
    ensures target.OnRowset? ==> start < total
  {
    target, start, overlap := position, 0, false;
    var prior: Size := if currentRow == 0 then 0 else currentRow - 1;
    var magnitude: Size := if offset < 0 then (-(offset + 1)) as Size + 1 else offset as Size;
    match o {
      case Bookmark =>
        if offset < 0 {
          if magnitude > bookmarkRow {
            target := BeforeStart;
          } else {
            target, start := OnRowset, bookmarkRow - magnitude;
          }
        } else if magnitude >= total - bookmarkRow {
          target := AfterEnd;
        } else {
          target, start := OnRowset, bookmarkRow + magnitude;
        }
      case First =>
        target, start := OnRowset, 0;
      case Last =>
        target, start := OnRowset, if total > size then total - size else 0;
      case Absolute =>
        target, start, overlap := PositionAbsolute(offset, magnitude, total, size);
      case Relative =>
        if (target.BeforeStart? && offset > 0) || (target.AfterEnd? && offset < 0) {
          target, start, overlap := PositionAbsolute(offset, magnitude, total, size);
        } else if target.OnRowset? {
          if offset >= 0 {
            if prior >= total || magnitude >= total - prior {
              target := AfterEnd;
            } else {
              start := prior + magnitude;
            }
          } else if magnitude <= prior {
            start := prior - magnitude;
          } else if prior != 0 && magnitude <= size {
            start, overlap := 0, true;
          } else {
            target := BeforeStart;
          }
        }
      case Prior =>
        if target.AfterEnd? {
          target, start := OnRowset, if total >= size then total - size else 0;
          overlap := total < size && total != 0;
        } else if target.OnRowset? {
          if prior == 0 {
            target := BeforeStart;
          } else if prior < size {
            start, overlap := 0, true;
          } else {
            start := prior - size;
          }
        }
      case Next =>
        if target.BeforeStart? {
          target, start := OnRowset, 0;
        } else if target.OnRowset? {
          if prior >= total || oldSize >= total - prior {
            target := AfterEnd;
          } else {
            start := prior + oldSize;
          }
        }
    }
    if target.OnRowset? && total == 0 {
      target := AfterEnd;
    }
  }
}
