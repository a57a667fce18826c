/** Bookmarks over whole runs: which tokens a statement accepts, whatever happened before. */
module BookmarkRuns {
  import opened Options
  import opened Bookmarks
  import opened CursorPosition
  import C = ResultCursor

  /** A statement's bookmark state. `serial` identifies the result that the current generation was
      created for; it stands for the result itself and is never compared by the driver. */
  datatype Mark = Mark(id: nat, on: bool, generation: nat, active: nat, total: nat, serial: nat)

  /** A token that was handed out: by which statement, for which result and row. */
  datatype Minted = Minted(statement: nat, serial: nat, row: nat, token: seq<nat>, generation: nat)

  datatype System = System(nextId: nat, nextSerial: nat, marks: seq<Mark>, minted: seq<Minted>)

  /** The row a token names, or none: the checks of fetch and bulk fetch by bookmark. */
  function Accepted(m: Mark, token: seq<nat>): (r: Option<nat>)
    requires |token| == 24
  {
    var ordinal := Decode(token[16..24]);
    if m.active == 0 || Decode(token[..8]) != m.id || Decode(token[8..16]) != m.active ||
       ordinal == 0 || ordinal > m.total
    then None else Some(ordinal - 1)
  }

  // ---- the operations -------------------------------------------------------------

  datatype Op =
    | Allocate
    | TurnOn(i: nat)
    | TurnOff(i: nat)
    | Publish(i: nat, total: nat, hasResult: bool)
    | Clear(i: nat)
    | Mint(i: nat, row: nat)

  /** Setting SQL_ATTR_USE_BOOKMARKS: the identity is assigned once, by compare and exchange, and
      refused when the counter is exhausted. */
  function TurnedOn(s: System, i: nat): System
    requires i < |s.marks|
  {
    var m := s.marks[i];
    if m.id != 0 then s.(marks := s.marks[i := m.(on := true)])
    else if s.nextId == 0 || s.nextId >= WORD - 1 then s
    else s.(marks := s.marks[i := m.(on := true, id := s.nextId)], nextId := s.nextId + 1)
  }

  /** A result becomes current; with bookmarks on it gets a new generation, or publication fails. */
  function Published(s: System, i: nat, total: nat, hasResult: bool): System
    requires i < |s.marks|
  {
    var m := s.marks[i];
    if !(m.on && hasResult) then s.(marks := s.marks[i := m.(active := 0, total := total)])
    else if m.generation >= WORD - 2 then s
    else
      var g := m.generation + 1;
      s.(marks := s.marks[i := m.(generation := g, active := g, total := total, serial := s.nextSerial)],
         nextSerial := s.nextSerial + 1)
  }

  function Apply(s: System, op: Op): System {
    match op
    case Allocate => s.(marks := s.marks + [Mark(0, false, 0, 0, 0, 0)])
    case TurnOn(i) => if i < |s.marks| then TurnedOn(s, i) else s
    case TurnOff(i) => if i < |s.marks| then s.(marks := s.marks[i := s.marks[i].(on := false)]) else s
    case Publish(i, total, hasResult) => if i < |s.marks| && total < WORD then Published(s, i, total, hasResult) else s
    case Clear(i) => if i < |s.marks| then s.(marks := s.marks[i := s.marks[i].(active := 0, total := 0)]) else s
    case Mint(i, row) =>
      if i < |s.marks| && s.marks[i].active != 0 && row < s.marks[i].total then
        var m := s.marks[i];
        s.(minted := s.minted + [Minted(i, m.serial, row, Token(m.id, m.active, row), m.active)])
      else s
  }

  // ---- the invariant --------------------------------------------------------------

  predicate MarkOk(s: System, m: Mark) {
    && m.id < s.nextId && m.generation < WORD - 1 && m.total < WORD && m.serial < s.nextSerial
    && (m.on || m.generation > 0 ==> m.id != 0)
    && (m.active == 0 || m.active == m.generation)
  }

  /** A minted token belongs to its statement, to a generation not after the current one, and to the
      current result exactly when its generation is the current one. */
  predicate MintedOk(s: System, t: Minted) {
    && t.statement < |s.marks|
    && var m := s.marks[t.statement];
       && m.id != 0 && t.token == Token(m.id, t.generation, t.row)
       && 0 < t.generation <= m.generation && t.row + 1 < WORD
       && (t.generation == m.generation <==> t.serial == m.serial)
       && (t.serial == m.serial && m.active != 0 ==> t.row < m.total)
       && t.serial < s.nextSerial
  }

  predicate Inv(s: System) {
    && 0 < s.nextId < WORD && 0 < s.nextSerial
    && (forall i :: 0 <= i < |s.marks| ==> MarkOk(s, s.marks[i]))
    && (forall i, j :: 0 <= i < j < |s.marks| && s.marks[i].id != 0 ==> s.marks[i].id != s.marks[j].id)
    && (forall k :: 0 <= k < |s.minted| ==> MintedOk(s, s.minted[k]))
  }

  lemma ApplyKeepsInv(s: System, op: Op)
    requires Inv(s)
    ensures Inv(Apply(s, op))
  {
    hide Token;
    var t := Apply(s, op);
    forall i | 0 <= i < |t.marks| ensures MarkOk(t, t.marks[i]) {
      assert i < |s.marks| ==> MarkOk(s, s.marks[i]);
    }
    forall k | 0 <= k < |t.minted| ensures MintedOk(t, t.minted[k]) {
      assert k < |s.minted| ==> MintedOk(s, s.minted[k]);
      if op.Mint? && op.i < |s.marks| { assert MarkOk(s, s.marks[op.i]); }
    }
    IdsStayDistinct(s, op);
  }

  lemma IdsStayDistinct(s: System, op: Op)
    requires Inv(s)
    ensures var t := Apply(s, op);
      forall i, j :: 0 <= i < j < |t.marks| && t.marks[i].id != 0 ==> t.marks[i].id != t.marks[j].id
  {
    hide Token;
    var t := Apply(s, op);
    forall i, j | 0 <= i < j < |t.marks| && t.marks[i].id != 0 ensures t.marks[i].id != t.marks[j].id {
      if j < |s.marks| { assert MarkOk(s, s.marks[i]) && MarkOk(s, s.marks[j]); }
    }
  }

  function Start(): System { System(1, 1, [], []) }

  function Exec(ops: seq<Op>): System {
    if ops == [] then Start() else Apply(Exec(ops[..|ops| - 1]), ops[|ops| - 1])
  }

  lemma {:induction false} RunKeepsInv(ops: seq<Op>)
    ensures Inv(Exec(ops))
  {
    if ops != [] {
      hide Inv, Apply;
      RunKeepsInv(ops[..|ops| - 1]);
      ApplyKeepsInv(Exec(ops[..|ops| - 1]), ops[|ops| - 1]);
    }
  }

  /** On every run, a statement accepts a token that was handed out exactly when it is the statement
      that handed it out and the token's result is still current; it then names the row it was
      minted for. Tokens of earlier results and of other statements are always rejected. */
  lemma AcceptedIff(ops: seq<Op>, k: nat, j: nat)
    requires k < |Exec(ops).minted| && j < |Exec(ops).marks|
    ensures var s := Exec(ops); var t, m := s.minted[k], s.marks[j];
      && |t.token| == 24
      && Accepted(m, t.token) ==
           if j == t.statement && m.active != 0 && m.serial == t.serial then Some(t.row) else None
  {
    hide Apply, Token;
    RunKeepsInv(ops);
    var s := Exec(ops);
    var t, m := s.minted[k], s.marks[j];
    assert MintedOk(s, t) && MarkOk(s, m) && MarkOk(s, s.marks[t.statement]);
    TokenParts(s.marks[t.statement].id, t.generation, t.row);
    if j < t.statement { assert m.id != 0 ==> m.id != s.marks[t.statement].id; }
  }

  /** Fetching by an accepted token at offset 0 puts the cursor on the token's row. */
  lemma TokenReturnsToItsRow(c: C.View, m: Mark, token: seq<nat>, rowset: nat)
    requires C.Inv(c) && c.isStatic && !C.FetchRefused(c, Bookmark) && rowset >= 1
    requires |token| == 24 && m.total == c.total && Accepted(m, token).Some?
    ensures var row := Accepted(m, token).value;
      var (d, code) := C.Fetched(c, Bookmark, 0, rowset, Some(row + 1));
      code == C.Success && d.positioned && d.currentRow == row + 1
  {
  }
}
