/** Repeated NEXT reads a result like a tape: every row once, in order, then SQL_NO_DATA. */
module RowsetTiling {
  import opened Options
  import opened CursorPosition
  import opened ResultCursor

  /** Rows lo, lo+1, .., hi-1 (0-based). */
  function Rows(lo: nat, hi: nat): seq<nat>
    requires lo <= hi
  {
    seq(hi - lo, i requires 0 <= i => lo + i)
  }

  lemma RowsJoin(lo: nat, mid: nat, hi: nat)
    requires lo <= mid <= hi
    ensures Rows(lo, mid) + Rows(mid, hi) == Rows(lo, hi)
  {
  }

  predicate Open(c: View) {
    Inv(c) && c.executed && (c.hasColumns || c.parameterCursor) && !c.bulk && (c.marks.on ==> c.marks.active)
  }

  /** How many leading rows NEXT has passed. */
  function Frontier(c: View): (n: nat)
    requires Inv(c)
    ensures n <= c.total
  {
    if c.positioned then c.currentRow - 1 + c.actual
    else if (if c.isStatic then c.position.AfterEnd? else c.exhausted) then c.total
    else 0
  }

  /** A forward-only cursor steps by the new size, so its size may not change mid-way. */
  predicate Compatible(c: View, rowset: nat) {
    rowset >= 1 && (c.isStatic || !c.positioned || rowset == c.oldSize)
  }

  function NextOf(c: View, rowset: nat): (View, Code)
    requires Inv(c) && rowset >= 1
  {
    Fetched(c, Next, 0, rowset, None)
  }

  function Delivered(r: (View, Code)): seq<nat>
    requires Inv(r.0)
  {
    if r.1.Success? && r.0.positioned
    then Rows(r.0.currentRow - 1, r.0.currentRow - 1 + r.0.actual) else []
  }

  /** One NEXT delivers exactly the rows between two frontiers; it reports SQL_NO_DATA iff
      no row is left, and otherwise makes progress. */
  lemma NextStep(c: View, rowset: nat)
    requires Open(c) && Compatible(c, rowset)
    ensures var r := NextOf(c, rowset);
      && Open(r.0) && r.0.total == c.total && r.0.isStatic == c.isStatic
      && Frontier(c) <= Frontier(r.0)
      && Delivered(r) == Rows(Frontier(c), Frontier(r.0))
      && (r.1.NoData? <==> Frontier(c) == c.total)
      && (r.1.Success? <==> Frontier(c) < Frontier(r.0))
      && (r.0.positioned ==> r.0.oldSize == rowset)
  {
  }

  /** Any sizes on a static cursor, one size on a forward-only cursor. */
  predicate Usable(c: View, sizes: seq<nat>) {
    forall i :: 0 <= i < |sizes| ==> Compatible(c, sizes[i]) && (c.isStatic || sizes[i] == sizes[0])
  }

  function Reads(c: View, sizes: seq<nat>): (r: (View, seq<nat>, seq<Code>))
    requires Open(c) && Usable(c, sizes)
    ensures Open(r.0) && r.0.total == c.total && |r.2| == |sizes|
    decreases |sizes|
  {
    if sizes == [] then (c, [], [])
    else
      NextStep(c, sizes[0]);
      var one := NextOf(c, sizes[0]);
      var rest := Reads(one.0, sizes[1..]);
      (rest.0, Delivered(one) + rest.1, [one.1] + rest.2)
  }

  /** The rows delivered by any number of NEXT calls, with arbitrarily varying sizes on a
      static cursor and one size on a forward-only cursor, are the rows between the two
      frontiers, each once and in order; as many calls as rows are left exhaust the result. */
  lemma {:induction false} NextTiles(c: View, sizes: seq<nat>)
    requires Open(c) && Usable(c, sizes)
    ensures var r := Reads(c, sizes);
      && Frontier(c) <= Frontier(r.0)
      && r.1 == Rows(Frontier(c), Frontier(r.0))
      && (|sizes| >= c.total - Frontier(c) ==> Frontier(r.0) == c.total)
    decreases |sizes|
  {
    if sizes != [] {
      NextStep(c, sizes[0]);
      var one := NextOf(c, sizes[0]);
      NextTiles(one.0, sizes[1..]);
      RowsJoin(Frontier(c), Frontier(one.0), Frontier(Reads(one.0, sizes[1..]).0));
    }
  }

  /** Once NEXT reports SQL_NO_DATA every later NEXT does too. */
  lemma {:induction false} NoDataIsFinal(c: View, sizes: seq<nat>, i: nat, j: nat)
    requires Open(c) && Usable(c, sizes) && i < j < |sizes|
    requires Reads(c, sizes).2[i].NoData? || Frontier(c) == c.total
    ensures Reads(c, sizes).2[j].NoData?
    decreases |sizes|
  {
    NextStep(c, sizes[0]);
    var one := NextOf(c, sizes[0]);
    var rest := Reads(one.0, sizes[1..]).2;
    assert Reads(c, sizes).2 == [one.1] + rest;
    if i > 0 || j > 1 {
      NoDataIsFinal(one.0, sizes[1..], if i > 0 then i - 1 else 0, j - 1);
    } else {
      NextStep(one.0, sizes[1]);
    }
  }

  /** From before the start, as many NEXT calls as there are rows deliver all rows, and the
      call after them reports SQL_NO_DATA. */
  lemma NextReadsEverything(c: View, sizes: seq<nat>, more: nat)
    requires Open(c) && Frontier(c) == 0
    requires Usable(c, sizes) && |sizes| >= c.total && more >= 1
    ensures Reads(c, sizes).1 == Rows(0, c.total)
    ensures Compatible(Reads(c, sizes).0, more) ==> NextOf(Reads(c, sizes).0, more).1.NoData?
  {
    NextTiles(c, sizes);
    if Compatible(Reads(c, sizes).0, more) {
      NextStep(Reads(c, sizes).0, more);
    }
  }

  /** Exactly when a forward-only NEXT continues at the next unread row: the rowset size did
      not change since the previous fetch. */
  lemma ForwardContinuesIff(c: View, rowset: nat)
    requires Open(c) && !c.isStatic && c.positioned && Frontier(c) < c.total && rowset >= 1
    ensures var r := NextOf(c, rowset);
      (r.1.Success? && r.0.currentRow == Frontier(c) + 1) <==> rowset == c.oldSize
  {
  }

  /** Growing the size of a forward-only rowset skips rows 2 and 3. */
  lemma ForwardGrowthSkipsRows(c: View)
    requires c == Published(Empty(false, false), 5, true, false)
    ensures NextOf(c, 1) == (OnRows(c, BeforeStart, 1, 1), Success)
    ensures NextOf(NextOf(c, 1).0, 3).0.currentRow == 4
  {
  }

  /** Shrinking it delivers row 2 again. */
  lemma ForwardShrinkRepeatsRows(c: View)
    requires c == Published(Empty(false, false), 5, true, false)
    ensures NextOf(c, 2) == (OnRows(c, BeforeStart, 1, 2), Success) && NextOf(c, 2).0.actual == 2
    ensures NextOf(NextOf(c, 2).0, 1).0.currentRow == 2
  {
  }
}
