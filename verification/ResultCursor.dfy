/** The result cursor of a statement: publish, clear, fetch, set position, bulk fetch,
    the row-number attribute and the row that SQLGetData reads. */
module ResultCursor {
  import opened MachineWords
  import opened Options
  import opened CursorPosition

  datatype Code = Success | SuccessWithInfo | NoData | Error

  /** Whether bookmarks are in use, and whether the result has a bookmark generation. */
  datatype Marks = Marks(on: bool, active: bool)

  /** The positioning fields of `ODBCStatement`, over unbounded integers. */
  datatype View = View(
    total: nat,              // result_rows_.size()
    isStatic: bool,          // cursor_type_ == SQL_CURSOR_STATIC
    executed: bool,
    hasColumns: bool,        // !column_info_.empty()
    parameterCursor: bool,   // parameter_result_cursor_
    marks: Marks,            // use_bookmarks(), active_bookmark_generation_ != 0
    position: StaticPosition,
    currentRow: nat,         // 1-based first row of the rowset, 0 when none
    oldSize: nat,            // fetched_rowset_size_
    actual: nat,             // actual_fetched_rows_
    slot: nat,               // selected_row_slot_
    exhausted: bool,         // rowset_exhausted_
    positioned: bool,        // row_positioned_
    bulk: bool,              // bulk_unpositioned_
    failed: bool)            // fetch_failed_

  /** What every operation keeps. */
  predicate Inv(c: View) {
    && (c.positioned ==>
          && 1 <= c.currentRow <= c.total
          && 1 <= c.oldSize
          && c.actual == Min(c.oldSize, c.total - (c.currentRow - 1))
          && c.slot < c.actual
          && !c.exhausted && !c.bulk
          && (c.isStatic ==> c.position.OnRowset?))
    && (!c.positioned ==> c.actual == 0 && c.slot == 0 && (c.isStatic ==> c.currentRow == 0))
    && (!c.positioned && !c.isStatic && c.currentRow != 0 ==> c.exhausted)
    && (c.isStatic && c.position.OnRowset? && !c.bulk ==> c.positioned)
    && (c.bulk ==> c.isStatic)
    && (!c.isStatic ==> c.position.BeforeStart?)
  }

  function Empty(isStatic: bool, bookmarks: bool): View {
    View(0, isStatic, false, false, false, Marks(bookmarks, false), BeforeStart, 0, 1, 0, 0, false, false, false, false)
  }

  function Published(c: View, total: nat, hasColumns: bool, parameterCursor: bool): View {
    View(total, c.isStatic, true, hasColumns, parameterCursor,
         Marks(c.marks.on, c.marks.on && (hasColumns || total > 0 || parameterCursor)), BeforeStart, 0, 1, 0, 0, false, false, false, false)
  }

  function OffRow(c: View, target: StaticPosition): View {
    c.(position := target, bulk := false, actual := 0, slot := 0, exhausted := true,
       currentRow := if c.isStatic then 0 else c.currentRow, positioned := false, failed := false)
  }

  function OnRows(c: View, target: StaticPosition, first: nat, rowset: nat): View
    requires 1 <= first <= c.total
  {
    c.(position := target, bulk := false, currentRow := first, oldSize := rowset,
       actual := Min(rowset, c.total - first + 1), slot := 0,
       exhausted := false, positioned := true, failed := false)
  }

  predicate FetchRefused(c: View, o: Orientation) {
    || !c.executed
    || (!c.hasColumns && !c.parameterCursor)
    || (c.bulk && Sequential(o))
    || (c.marks.on && !c.marks.active)
    || (!c.isStatic && !o.Next?)
  }

  /** The 0-based start a forward-only NEXT tries: the OLD size decides the end, the NEW
      size the step. None is the end of the result. */
  function ForwardStart(c: View, rowset: nat): (start: Option<nat>) {
    if c.exhausted then None
    else if c.currentRow == 0 then (if c.total == 0 then None else Some(0))
    else
      var prior := c.currentRow - 1;
      if c.oldSize >= c.total - prior || prior + rowset >= c.total then None
      else Some(prior + rowset)
  }

  /** An admitted fetch; `bookmark` is the 1-based row its bookmark names. */
  function Moved(c: View, o: Orientation, offset: int, rowset: nat, bookmark: nat): (r: (View, Code))
    requires Inv(c) && !FetchRefused(c, o) && rowset >= 1
    requires o.Bookmark? ==> 1 <= bookmark <= c.total
    ensures Inv(r.0) && r.0.total == c.total && r.0.isStatic == c.isStatic
    ensures r.1.NoData? <==> !r.0.positioned
    ensures !r.1.Error?
  {
    if c.isStatic then
      match Rule(o, WhereOf(c.position, c.currentRow), offset, c.total, rowset, c.oldSize, bookmark)
      case ToBefore => (OffRow(c, BeforeStart), NoData)
      case ToAfter => (OffRow(c, AfterEnd), NoData)
      case ToRow(first, overlap) =>
        (OnRows(c, OnRowset, first, rowset), if overlap then SuccessWithInfo else Success)
    else
      match ForwardStart(c, rowset)
      case None => (OffRow(c, c.position), NoData)
      case Some(start) => (OnRows(c, c.position, start + 1, rowset), Success)
  }

  /** SQLFetch and SQLFetchScroll; None is a bookmark that is absent or names no row. */
  function Fetched(c: View, o: Orientation, offset: int, rowset: nat, bookmark: Option<nat>): (r: (View, Code))
    requires Inv(c) && rowset >= 1
    requires bookmark.Some? ==> 1 <= bookmark.value <= c.total
    ensures Inv(r.0) && r.0.total == c.total && r.0.isStatic == c.isStatic
    ensures r.1.NoData? ==> !r.0.positioned
    ensures r.1.Success? || r.1.SuccessWithInfo? ==> r.0.positioned
  {
    if FetchRefused(c, o) then (c, Error)
    else if o.Bookmark? && bookmark.None? then (c.(failed := true), Error)
    else Moved(c, o, offset, rowset, if o.Bookmark? then bookmark.value else 1)
  }

  /** SQLSetPos(SQL_POSITION, SQL_LOCK_NO_CHANGE). */
  function Selected(c: View, row: nat): (r: (View, Code))
    requires Inv(c)
    ensures Inv(r.0)
    ensures r.1.Success? <==> r.0.slot == row - 1 && c.positioned && c.executed && c.hasColumns
                              && c.isStatic && 1 <= row <= c.actual
  {
    if c.bulk || !c.executed || !c.hasColumns || !c.positioned || !c.isStatic || row == 0 || row > c.actual
    then (c, Error)
    else (c.(slot := row - 1), Success)
  }

  /** The committed part of SQLBulkOperations(SQL_FETCH_BY_BOOKMARK). */
  function BulkFetched(c: View, errors: nat, count: nat): View {
    c.(bulk := true, failed := errors == count, positioned := false, currentRow := 0,
       actual := 0, slot := 0)
  }

  /** SQL_ATTR_ROW_NUMBER: None is an error return, 0 is "cannot be determined". */
  function RowNumber(c: View): (n: Option<nat>)
    requires Inv(c)
    ensures n.Some? && n.value != 0 ==> c.positioned && 1 <= n.value <= c.total
  {
    if !c.executed || !c.hasColumns then None
    else if c.positioned then Some(c.currentRow + c.slot)
    else if c.bulk && !c.failed then Some(0)
    else None
  }

  /** The 0-based row SQLGetData reads, or None. */
  function ReadRow(c: View): (r: Option<nat>)
    requires Inv(c)
    ensures r.Some? ==> r.value < c.total && r.value + 1 == c.currentRow + c.slot
    ensures r.Some? <==> c.executed && c.positioned && (c.isStatic || c.oldSize == 1)
  {
    if c.executed && c.positioned && (c.isStatic || c.oldSize == 1)
    then Some(c.currentRow - 1 + c.slot) else None
  }

  // ---- whole runs -----------------------------------------------------------------

  datatype Op =
    | Publish(total: nat, hasColumns: bool, parameterCursor: bool)
    | Clear
    | Fetch(o: Orientation, offset: int, rowset: nat, bookmark: Option<nat>)
    | SetPos(row: nat)
    | Bulk(errors: nat, count: nat)
    | UseBookmarks(on: bool)

  predicate Allowed(c: View, op: Op) {
    match op
    case Fetch(o, _, rowset, bookmark) =>
      rowset >= 1 && (bookmark.Some? ==> 1 <= bookmark.value <= c.total)
    case Bulk(errors, count) => c.executed && c.hasColumns && c.isStatic && errors <= count && 1 <= count
    case _ => true
  }

  function Apply(c: View, op: Op): (c': View)
    requires Inv(c) && Allowed(c, op)
    ensures Inv(c') && c'.isStatic == c.isStatic
  {
    match op
    case Publish(total, hasColumns, parameterCursor) => Published(c, total, hasColumns, parameterCursor)
    case Clear => Empty(c.isStatic, c.marks.on)
    case Fetch(o, offset, rowset, bookmark) => Fetched(c, o, offset, rowset, bookmark).0
    case SetPos(row) => Selected(c, row).0
    case Bulk(errors, count) => BulkFetched(c, errors, count)
    case UseBookmarks(on) => c.(marks := c.marks.(on := on))
  }

  /** A step of a run; nothing is known about a step from a state that breaks the invariant. */
  predicate Step(c: View, op: Op, c': View) {
    Allowed(c, op) && (Inv(c) ==> c' == Apply(c, op))
  }

  predicate IsRun(states: seq<View>, ops: seq<Op>) {
    && |states| == |ops| + 1
    && states[0] == Empty(states[0].isStatic, false)
    && forall i :: 0 <= i < |ops| ==> Step(states[i], ops[i], states[i + 1])
  }

  /** In every reachable state the row SQLGetData reads and the row-number attribute are
      the same real row of the published result. */
  lemma {:induction false} RunNamesRealRows(states: seq<View>, ops: seq<Op>, k: nat)
    requires IsRun(states, ops) && k < |states|
    ensures Inv(states[k])
    ensures ReadRow(states[k]).Some? && states[k].hasColumns ==>
      RowNumber(states[k]) == Some(ReadRow(states[k]).value + 1) && ReadRow(states[k]).value < states[k].total
  {
    if k > 0 {
      RunNamesRealRows(states, ops, k - 1);
      assert Step(states[k - 1], ops[k - 1], states[k]);
    }
  }

  predicate Repositions(op: Op) {
    || op.Publish? || op.Clear?
    || (op.Fetch? && !Sequential(op.o))
  }

  /** After a bulk fetch nothing is positioned until a fetch that names its row absolutely
      (or a new result): NEXT, PRIOR, RELATIVE, SetPos and further bulk fetches do not help. */
  lemma {:induction false} BulkStaysUnpositioned(states: seq<View>, ops: seq<Op>, j: nat, k: nat)
    requires IsRun(states, ops) && j < k < |states|
    requires ops[j].Bulk?
    requires forall i :: j < i < k ==> !Repositions(ops[i])
    ensures states[k].bulk && !states[k].positioned
    ensures Inv(states[k]) && ReadRow(states[k]).None?
    decreases k
  {
    RunNamesRealRows(states, ops, k);
    RunNamesRealRows(states, ops, k - 1);
    assert Step(states[k - 1], ops[k - 1], states[k]);
    if k > j + 1 {
      BulkStaysUnpositioned(states, ops, j, k - 1);
      assert !Repositions(ops[k - 1]);
    }
  }

  // ---- the statement object -------------------------------------------------------

  /** The positioning fields, in the driver's own integer widths. */
  datatype Rowset = Rowset(
    staticPosition: StaticPosition,
    currentRow: Size,
    fetchedRowsetSize: Size,
    actualFetchedRows: Size,
    selectedRowSlot: Size,
    exhausted: bool,
    positioned: bool,
    bulkUnpositioned: bool,
    fetchFailed: bool)

  const UNPOSITIONED := Rowset(BeforeStart, 0, 1, 0, 0, false, false, false, false)

  class Cursor {
    var total: Size
    var isStatic: bool
    var executed: bool
    var hasColumns: bool
    var parameterCursor: bool
    var marks: Marks
    var rowset: Rowset

    ghost function State(): View
      reads this
    {
      View(total as nat, isStatic, executed, hasColumns, parameterCursor, marks, rowset.staticPosition,
           rowset.currentRow as nat, rowset.fetchedRowsetSize as nat, rowset.actualFetchedRows as nat,
           rowset.selectedRowSlot as nat, rowset.exhausted, rowset.positioned,
           rowset.bulkUnpositioned, rowset.fetchFailed)
    }

    ghost predicate Valid()
      reads this
    {
      Inv(State())
    }

    constructor (isStatic: bool)
      ensures Valid() && State() == Empty(isStatic, false)
    {
      this.isStatic := isStatic;
      total, executed, hasColumns, parameterCursor, marks := 0, false, false, false, Marks(false, false);
      rowset := UNPOSITIONED;
    }

    method PublishResult(rows: Size, columns: bool, parameterResult: bool)
      requires Valid()
      modifies this
      ensures Valid() && State() == Published(old(State()), rows as nat, columns, parameterResult)
    {
      total := rows;
      rowset := UNPOSITIONED;
      executed := true;
      hasColumns := columns;
      parameterCursor := parameterResult;
      marks := marks.(active := marks.on && (columns || rows != 0 || parameterResult));
    }

    method ClearResult()
      requires Valid()
      modifies this
      ensures Valid() && State() == Empty(old(isStatic), old(marks.on))
    {
      parameterCursor := false;
      marks := marks.(active := false);
      total := 0;
      hasColumns := false;
      rowset := UNPOSITIONED;
      executed := false;
    }

    /** The position `fetch_impl` computes before it changes any field. */
    method LocateRowset(o: Orientation, offset: SqlLen, size: Size, bookmark: Size)
      returns (target: StaticPosition, start: Size, overlap: bool, found: bool)
      requires Valid() && size != 0 && !FetchRefused(State(), o)
      requires o.Bookmark? ==> bookmark < total
      ensures found ==> start < total
      ensures isStatic ==>
        && found == target.OnRowset?
        && LandingOf(target, start as int, overlap)
        == Rule(o, WhereOf(rowset.staticPosition, rowset.currentRow as int), offset as int, total as int,
                size as int, rowset.fetchedRowsetSize as int, bookmark as int + 1)
      ensures !isStatic ==>
        && !overlap && target == rowset.staticPosition
        && ForwardStart(State(), size as nat) == if found then Option<nat>.Some(start as nat) else None
    {
      start, overlap, target := 0, false, rowset.staticPosition;
      var exhausted := rowset.exhausted;
      if isStatic {
        target, start, overlap := PositionStatic(o, offset, total, size, rowset.fetchedRowsetSize,
                                                 rowset.staticPosition, rowset.currentRow, bookmark);
        exhausted := !target.OnRowset?;
      } else if rowset.currentRow != 0 && !exhausted {
        var priorStart := rowset.currentRow - 1;
        if priorStart >= total || rowset.fetchedRowsetSize >= total - priorStart ||
           size > SIZE_MAX as Size - priorStart {
          exhausted := true;
        } else {
          start := priorStart + size;
        }
      }
      found := !exhausted && start < total;
    }

    /** The field updates of `fetch_impl` once the target is known. */
    method CommitRowset(target: StaticPosition, start: Size, found: bool, size: Size)
      requires found ==> start < total
      modifies this`rowset
      ensures State() == if found then OnRows(old(State()), target, start as nat + 1, size as nat)
                         else OffRow(old(State()), target)
    {
      rowset := rowset.(staticPosition := target, bulkUnpositioned := false,
                        actualFetchedRows := 0, selectedRowSlot := 0);
      if !found {
        rowset := rowset.(exhausted := true, positioned := false, fetchFailed := false);
        if isStatic {
          rowset := rowset.(currentRow := 0);
        }
        return;
      }
      var count := if size <= total - start then size else total - start;
      rowset := rowset.(actualFetchedRows := count, exhausted := false, currentRow := start + 1,
                        fetchedRowsetSize := size, positioned := true, fetchFailed := false);
    }

    method MoveRowset(o: Orientation, offset: SqlLen, size: Size, bookmark: Size) returns (code: Code)
      requires Valid() && size != 0 && !FetchRefused(State(), o)
      requires o.Bookmark? ==> bookmark < total
      modifies this`rowset
      ensures (State(), code) == Moved(old(State()), o, offset as int, size as nat, bookmark as nat + 1)
    {
      var target, start, overlap, found := LocateRowset(o, offset, size, bookmark);
      CommitRowset(target, start, found, size);
      code := if !found then NoData else if overlap then SuccessWithInfo else Success;
    }

    /** `fetch_impl` after its address preflight, with retrieval of bound columns off. */
    method Fetch(o: Orientation, offset: SqlLen, size: Size, bookmarkRow: Option<Size>) returns (code: Code)
      requires Valid() && size != 0
      requires bookmarkRow.Some? ==> bookmarkRow.value < total
      modifies this`rowset
      ensures Valid()
      ensures (State(), code) == Fetched(old(State()), o, offset as int, size as nat,
        if bookmarkRow.Some? then Option<nat>.Some(bookmarkRow.value as nat + 1) else None)
    {
      if !o.Next? && !isStatic {
        return Error;
      }
      if !executed {
        return Error;
      }
      if !hasColumns && !parameterCursor {
        return Error;
      }
      if rowset.bulkUnpositioned && (o.Next? || o.Prior? || o.Relative?) {
        return Error;
      }
      if marks.on && !marks.active {
        return Error;
      }
      var bookmark: Size := 0;
      if o.Bookmark? {
        if bookmarkRow.None? {
          rowset := rowset.(fetchFailed := true);
          return Error;
        }
        bookmark := bookmarkRow.value;
      }
      code := MoveRowset(o, offset, size, bookmark);
    }

    method SelectRow(row: Size) returns (code: Code)
      requires Valid()
      modifies this`rowset
      ensures Valid() && (State(), code) == Selected(old(State()), row as nat)
    {
      if rowset.bulkUnpositioned || !executed {
        return Error;
      }
      if !hasColumns || !rowset.positioned || rowset.currentRow == 0 || rowset.actualFetchedRows == 0 {
        return Error;
      }
      if !isStatic || row == 0 {
        return Error;
      }
      if row > rowset.actualFetchedRows {
        return Error;
      }
      var slot := row - 1;
      var start := rowset.currentRow - 1;
      if start >= total || slot >= total - start {
        return Error;
      }
      rowset := rowset.(selectedRowSlot := slot);
      return Success;
    }

    method CommitBulk(errors: Size, count: Size)
      requires Valid() && executed && hasColumns && isStatic && errors <= count
      modifies this`rowset
      ensures Valid() && State() == BulkFetched(old(State()), errors as nat, count as nat)
    {
      rowset := rowset.(bulkUnpositioned := true, fetchFailed := false, positioned := false,
                        currentRow := 0, actualFetchedRows := 0, selectedRowSlot := 0);
      rowset := rowset.(fetchFailed := errors == count);
    }

    /** The cursor guards of `get_data` and the row index it computes. */
    method RowForGetData() returns (row: Option<Size>)
      requires Valid()
      ensures row.Some? <==> ReadRow(State()).Some?
      ensures row.Some? ==> row.value as nat == ReadRow(State()).value
    {
      if !executed || !rowset.positioned || rowset.currentRow == 0 || rowset.currentRow > total {
        return None;
      }
      if rowset.fetchedRowsetSize > 1 && !isStatic {
        return None;
      }
      var rowsetStart := rowset.currentRow - 1;
      if rowset.selectedRowSlot >= total - rowsetStart ||
         rowset.selectedRowSlot >= rowset.actualFetchedRows {
        return None;
      }
      return Some(rowsetStart + rowset.selectedRowSlot);
    }
  }
}
