/** What scrolling means to an application: laws of SQLFetchScroll on a static cursor over any result
    with rows, stated on the rows that a fetch delivers. */
module CursorLaws {
  import opened MachineWords
  import opened Options
  import opened CursorPosition
  import opened ResultCursor

  /** A static cursor over a result with rows, on which the fetch is not refused. */
  predicate Scrolls(c: View, o: Orientation, rowset: nat) {
    Inv(c) && c.isStatic && c.total > 0 && rowset >= 1 && !FetchRefused(c, o)
  }

  function Scroll(c: View, o: Orientation, offset: int, rowset: nat): (View, Code)
    requires Scrolls(c, o, rowset) && !o.Bookmark?
  {
    Fetched(c, o, offset, rowset, None)
  }

  /** The last row of the current rowset. */
  function LastRow(c: View): int { c.currentRow + c.actual - 1 }

  /** The fetch delivers the rows from `first`, as many as there are up to the rowset size. */
  predicate Shows(r: (View, Code), first: int, rowset: nat, total: nat) {
    r.0.positioned && r.0.currentRow == first && r.0.total == total && LastRow(r.0) == Min(first + rowset - 1, total)
  }

  /** FIRST shows the rowset that starts at row 1. */
  lemma FirstIsTheFirstRowset(c: View, offset: int, rowset: nat)
    requires Scrolls(c, First, rowset)
    ensures Shows(Scroll(c, First, offset, rowset), 1, rowset, c.total) && Scroll(c, First, offset, rowset).1 == Success
  {
  }

  /** LAST shows a rowset that ends with the last row, a full one if there are enough rows. */
  lemma LastEndsAtTheLastRow(c: View, offset: int, rowset: nat)
    requires Scrolls(c, Last, rowset)
    ensures var r := Scroll(c, Last, offset, rowset);
      r.1 == Success && r.0.positioned && LastRow(r.0) == c.total && r.0.actual == Min(rowset, c.total)
  {
  }

  /** ABSOLUTE n shows the rowset that starts at row n. */
  lemma AbsoluteStartsThere(c: View, n: int, rowset: nat)
    requires Scrolls(c, Absolute, rowset)
    ensures 1 <= n <= c.total ==>
      Shows(Scroll(c, Absolute, n, rowset), n, rowset, c.total) && Scroll(c, Absolute, n, rowset).1 == Success
    ensures n > c.total ==> Scroll(c, Absolute, n, rowset).1 == NoData && Scroll(c, Absolute, n, rowset).0.position.AfterEnd?
    ensures n == 0 ==> Scroll(c, Absolute, n, rowset).1 == NoData && Scroll(c, Absolute, n, rowset).0.position.BeforeStart?
  {
  }

  /** ABSOLUTE -n counts from the end; beyond the first row it shows the first rowset while one rowset
      reaches that far, and otherwise nothing. */
  lemma AbsoluteCountsFromTheEnd(c: View, n: int, rowset: nat)
    requires Scrolls(c, Absolute, rowset) && n >= 1
    ensures n <= c.total ==> Scroll(c, Absolute, -n, rowset) == Scroll(c, Absolute, c.total + 1 - n, rowset)
    ensures c.total < n <= rowset ==> Shows(Scroll(c, Absolute, -n, rowset), 1, rowset, c.total)
    ensures n > c.total && n > rowset ==> Scroll(c, Absolute, -n, rowset).1 == NoData
  {
  }

  /** RELATIVE k moves the first row by exactly k, and off a rowset it is ABSOLUTE k. */
  lemma RelativeMovesByOffset(c: View, k: int, rowset: nat)
    requires Scrolls(c, Relative, rowset)
    ensures c.positioned && 1 <= c.currentRow + k <= c.total ==>
      Shows(Scroll(c, Relative, k, rowset), c.currentRow + k, rowset, c.total) && Scroll(c, Relative, k, rowset).1 == Success
    ensures c.positioned && c.currentRow + k > c.total ==>
      Scroll(c, Relative, k, rowset).1 == NoData && Scroll(c, Relative, k, rowset).0.position.AfterEnd?
    ensures (c.position.BeforeStart? && k > 0) || (c.position.AfterEnd? && k < 0) ==>
      Scroll(c, Relative, k, rowset) == Scroll(c, Absolute, k, rowset)
  {
  }

  /** PRIOR shows the full rowset just before the current one, and from after the end the last one. */
  lemma PriorEndsJustBefore(c: View, offset: int, rowset: nat)
    requires Scrolls(c, Prior, rowset)
    ensures c.positioned && c.currentRow > rowset ==>
      var r := Scroll(c, Prior, offset, rowset);
      r.1 == Success && r.0.positioned && LastRow(r.0) == c.currentRow - 1 && r.0.actual == rowset
    ensures (c.positioned && c.currentRow == 1) || c.position.BeforeStart? ==> Scroll(c, Prior, offset, rowset).1 == NoData
    ensures c.position.AfterEnd? && rowset <= c.total ==>
      Scroll(c, Prior, offset, rowset) == Scroll(c, Last, offset, rowset)
  {
  }

  /** NEXT and then PRIOR of the same size come back to the same rowset. */
  lemma PriorUndoesNext(c: View, rowset: nat)
    requires Scrolls(c, Next, rowset) && c.positioned && c.oldSize == rowset
    requires Scroll(c, Next, 0, rowset).1 == Success
    ensures var d := Scroll(c, Next, 0, rowset).0;
      && Scrolls(d, Prior, rowset)
      && Shows(Scroll(d, Prior, 0, rowset), c.currentRow, rowset, c.total)
      && Scroll(d, Prior, 0, rowset).0.actual == c.actual
  {
  }

  /** Where a scroll that can overshoot the start asks to begin, in row numbers. */
  function Asked(c: View, o: Orientation, offset: int, rowset: nat): Option<int> {
    match o
    case Prior =>
      if c.position.AfterEnd? then Some(c.total + 1 - rowset)
      else if c.position.BeforeStart? then None
      else Some(c.currentRow - rowset)
    case Absolute => if offset < 0 then Some(c.total + 1 + offset) else None
    case Relative =>
      if c.position.OnRowset? then Some(c.currentRow + offset)
      else if c.position.AfterEnd? && offset < 0 then Some(c.total + 1 + offset)
      else None
    case _ => None
  }

  /** 01S06 is reported exactly when the start asked for lies before row 1 and the fetch still shows
      row 1. */
  lemma OverlapIsReportedIff(c: View, o: Orientation, offset: int, rowset: nat)
    requires Scrolls(c, o, rowset) && !o.Bookmark?
    ensures var r := Scroll(c, o, offset, rowset);
      r.1 == SuccessWithInfo <==>
        Asked(c, o, offset, rowset).Some? && Asked(c, o, offset, rowset).value < 1 && r.0.positioned && r.0.currentRow == 1
  {
  }

  /** A bookmark with an offset shows the rowset that many rows away, or nothing. */
  lemma BookmarkMovesByOffset(c: View, bookmark: nat, k: int, rowset: nat)
    requires Scrolls(c, Bookmark, rowset) && 1 <= bookmark <= c.total
    ensures var r := Fetched(c, Bookmark, k, rowset, Some(bookmark));
      if 1 <= bookmark + k <= c.total then r.1 == Success && Shows(r, bookmark + k, rowset, c.total) else r.1 == NoData
  {
  }

  /** A fetch is refused, without a change, exactly in these cases. */
  lemma RefusedIff(c: View, o: Orientation, offset: int, rowset: nat)
    requires Inv(c) && rowset >= 1 && !o.Bookmark?
    ensures Fetched(c, o, offset, rowset, None) == (c, Error) <==>
      || !c.executed || (!c.hasColumns && !c.parameterCursor)
      || (c.bulk && (o.Next? || o.Prior? || o.Relative?))
      || (c.marks.on && !c.marks.active)
      || (!c.isStatic && !o.Next?)
  {
  }
}
