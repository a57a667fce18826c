/** The prepared-metadata cache: a connection's epoch, the statements that publish into it, and the
    revision of each statement's implementation parameter descriptor (IPD). */
module MetadataCache {
  import opened Options
  import opened ParameterMerge

  /** What the data source answers: its columns, and one native type for each marker. */
  datatype Description = Description(columns: int, natives: seq<Native>)

  /** What the statement shows of a description. */
  datatype Shown = Shown(columns: int, parameters: seq<Parameter>)

  /** A statement: its SQL and marker count, its IPD records and their revision, what it recorded when
      it last published, and the metadata it shows. `merged` holds the IPD records that publication
      was merged with, and `publishedAt` the number of epoch-ending operations by then. */
  datatype Statement = Statement(
    sql: int, markers: nat, records: seq<Record>, revision: nat,
    available: bool, epoch: nat, ipdRevision: nat, shown: Option<Shown>, merged: seq<Record>, publishedAt: nat)

  /** A connection: whether it has a backend session, its current epoch (0 for none), the next epoch
      identity, the state of the session and the number of operations that ended an epoch. */
  datatype Conn = Conn(lease: bool, epoch: nat, nextEpoch: nat, world: int, operations: nat, statements: seq<Statement>)

  /** What the backend says of a text with given parameter types in a given session state. */
  type Describer = (int, seq<Wire>, int) -> Description

  predicate Hit(c: Conn, s: Statement) {
    s.available && c.lease && c.epoch != 0 && s.epoch == c.epoch && s.ipdRevision == s.revision
  }

  function Answer(describe: Describer, c: Conn, s: Statement): Description {
    describe(s.sql, Types(s.markers, s.records), c.world)
  }

  function Showing(d: Description, records: seq<Record>): Shown { Shown(d.columns, MergeAll(d.natives, records)) }

  /** What the statement would show after a fresh description. */
  function Fresh(describe: Describer, c: Conn, s: Statement): Shown { Showing(Answer(describe, c, s), s.records) }

  // ---- the operations -------------------------------------------------------------

  /** clear_current_result. */
  function Cleared(s: Statement): Statement { s.(available := false, epoch := 0, ipdRevision := 0, shown := None) }

  /** An operation that may change the session: the epoch ends before it can. */
  function Operate(c: Conn, world: int): Conn { c.(epoch := 0, world := world, operations := c.operations + 1) }

  /** The statement after a successful description, under the connection's epoch. */
  function Published(c: Conn, s: Statement, d: Description): Statement {
    s.(records := RepublishAll(d.natives, s.records), revision := s.revision + 1, available := true, epoch := c.epoch,
       ipdRevision := s.revision + 1, shown := Some(Showing(d, s.records)), merged := s.records,
       publishedAt := c.operations)
  }

  /** describe_prepared_metadata: a hit changes nothing; otherwise the session is asked. A description
      with the wrong number of parameters is refused. */
  function Describe(describe: Describer, c: Conn, i: nat, world: int, ok: bool): Conn
    requires i < |c.statements|
  {
    var s := c.statements[i];
    if Hit(c, s) then c
    else
      var d := Operate(c, world);
      var answer := Answer(describe, d, s);
      if !ok || |answer.natives| != s.markers then d
      else
        var e := if d.lease then d.(epoch := d.nextEpoch, nextEpoch := d.nextEpoch + 1) else d;
        e.(statements := e.statements[i := Published(e, s, answer)])
  }

  datatype Op =
    | Backend(world: int)                                  // query, batch, catalog execution, transaction, isolation, health, reset
    | Inspect(world: int)                                  // column origins, catalog text, catalog selection: the epoch stays
    | Lose                                                 // the connection is closed
    | Reconnect(world: int)
    | DescribeOp(i: nat, world: int, ok: bool)
    | Prepare(i: nat, sql: int, markers: nat)
    | ChangeIpd(i: nat, records: seq<Record>, drops: bool) // drops: binding a prepared, unexecuted statement
    | Close(i: nat, shown: Option<Shown>)                  // the result is cleared, and perhaps replaced by an executed one
    | Allocate(sql: int)

  function Apply(describe: Describer, c: Conn, op: Op): Conn {
    match op
    case Backend(world) => Operate(c, world)
    case Inspect(world) => c.(world := world)
    case Lose => Operate(c, c.world).(lease := false)
    case Reconnect(world) => Operate(c, world).(lease := true)
    case DescribeOp(i, world, ok) => if i < |c.statements| then Describe(describe, c, i, world, ok) else c
    case Allocate(sql) => c.(statements := c.statements + [Statement(sql, 0, [], 0, false, 0, 0, None, [], 0)])
    case Prepare(i, sql, markers) =>
      if i < |c.statements| then With(c, i, Cleared(c.statements[i]).(sql := sql, markers := markers)) else c
    case ChangeIpd(i, records, drops) => if i < |c.statements| then With(c, i, Changed(c.statements[i], records, drops)) else c
    case Close(i, shown) => if i < |c.statements| then With(c, i, Cleared(c.statements[i]).(shown := shown)) else c
  }

  function With(c: Conn, i: nat, s: Statement): Conn
    requires i < |c.statements|
  {
    c.(statements := c.statements[i := s])
  }

  /** Every change of the IPD advances its revision. */
  function Changed(s: Statement, records: seq<Record>, drops: bool): Statement {
    s.(records := records, revision := s.revision + 1, available := s.available && !drops, shown := if drops then None else s.shown)
  }

  /** What an operation that leaves the epoch must leave alone: every description. */
  ghost predicate Silent(describe: Describer, before: int, after: int) {
    forall sql, types :: describe(sql, types, before) == describe(sql, types, after)
  }

  // ---- soundness ------------------------------------------------------------------

  /** What holds of each statement: its records are not from the future, and a hit shows, and left in
      the IPD, what the session's present answer made of the records of that time. */
  predicate Sound(describe: Describer, c: Conn, s: Statement) {
    && s.epoch < c.nextEpoch && s.ipdRevision <= s.revision
    && (Hit(c, s) ==>
          var d := Answer(describe, c, s);
          && |d.natives| == s.markers && s.records == RepublishAll(d.natives, s.merged)
          && s.shown == Some(Showing(d, s.merged)) && s.publishedAt == c.operations)
  }

  predicate Inv(describe: Describer, c: Conn) {
    && 0 < c.nextEpoch && c.epoch < c.nextEpoch
    && (forall i :: 0 <= i < |c.statements| ==> Sound(describe, c, c.statements[i]))
    && (forall i, j :: 0 <= i < j < |c.statements| && c.statements[i].epoch != 0 ==> c.statements[i].epoch != c.statements[j].epoch)
  }

  lemma WithKeepsInv(describe: Describer, c: Conn, i: nat, s: Statement)
    requires Inv(describe, c) && i < |c.statements| && Sound(describe, c, s)
    requires s.epoch == 0 || s.epoch == c.statements[i].epoch
    ensures Inv(describe, With(c, i, s))
  {
    var d := With(c, i, s);
    forall k | 0 <= k < |d.statements| ensures Sound(describe, d, d.statements[k]) {
      assert Sound(describe, c, c.statements[k]);
    }
  }

  lemma OperateKeepsInv(describe: Describer, c: Conn, world: int, lease: bool)
    requires Inv(describe, c)
    ensures Inv(describe, Operate(c, world).(lease := lease))
  {
    var d := Operate(c, world).(lease := lease);
    forall k | 0 <= k < |d.statements| ensures Sound(describe, d, d.statements[k]) {
      assert Sound(describe, c, c.statements[k]);
    }
  }

  lemma InspectKeepsInv(describe: Describer, c: Conn, world: int)
    requires Inv(describe, c) && Silent(describe, c.world, world)
    ensures Inv(describe, c.(world := world))
  {
    var d := c.(world := world);
    forall k | 0 <= k < |d.statements| ensures Sound(describe, d, d.statements[k]) {
      assert Sound(describe, c, c.statements[k]);
    }
  }

  lemma PublishedIsSound(describe: Describer, c: Conn, s: Statement)
    requires 0 < c.nextEpoch && c.epoch < c.nextEpoch && |Answer(describe, c, s).natives| == s.markers
    ensures Sound(describe, c, Published(c, s, Answer(describe, c, s)))
  {
    hide RepublishAll, MergeAll, Types;
    TypesStay(s.markers, Answer(describe, c, s).natives, s.records);
  }

  lemma DescribeKeepsInv(describe: Describer, c: Conn, i: nat, world: int, ok: bool)
    requires Inv(describe, c) && i < |c.statements|
    ensures Inv(describe, Describe(describe, c, i, world, ok))
  {
    hide Showing, Answer, RepublishAll;
    var s := c.statements[i];
    OperateKeepsInv(describe, c, world, c.lease);
    var d, e := Operate(c, world), Describe(describe, c, i, world, ok);
    if !Hit(c, s) && e != d {
      assert Answer(describe, e, s) == Answer(describe, d, s) by { SameWorld(describe, d, e, s); }
      PublishedIsSound(describe, e, s);
      forall k | 0 <= k < |e.statements| ensures Sound(describe, e, e.statements[k]) {
        assert Sound(describe, d, d.statements[k]);
      }
      forall a, b | 0 <= a < b < |e.statements| && e.statements[a].epoch != 0 ensures e.statements[a].epoch != e.statements[b].epoch {
        assert Sound(describe, d, d.statements[a]) && Sound(describe, d, d.statements[b]);
      }
    }
  }

  lemma SameWorld(describe: Describer, c: Conn, d: Conn, s: Statement)
    requires c.world == d.world
    ensures Answer(describe, c, s) == Answer(describe, d, s)
  {
  }

  lemma AllocateKeepsInv(describe: Describer, c: Conn, sql: int)
    requires Inv(describe, c)
    ensures Inv(describe, Apply(describe, c, Allocate(sql)))
  {
    var d := Apply(describe, c, Allocate(sql));
    forall k | 0 <= k < |d.statements| ensures Sound(describe, d, d.statements[k]) {
      assert k < |c.statements| ==> Sound(describe, c, c.statements[k]);
    }
  }

  lemma ApplyKeepsInv(describe: Describer, c: Conn, op: Op)
    requires Inv(describe, c) && (op.Inspect? ==> Silent(describe, c.world, op.world))
    ensures Inv(describe, Apply(describe, c, op))
  {
    hide Describe, With, Answer, Showing, RepublishAll, Silent;
    match op
    case Backend(world) => OperateKeepsInv(describe, c, world, c.lease);
    case Inspect(world) => InspectKeepsInv(describe, c, world);
    case Lose => OperateKeepsInv(describe, c, c.world, false);
    case Reconnect(world) => OperateKeepsInv(describe, c, world, true);
    case DescribeOp(i, world, ok) => if i < |c.statements| { DescribeKeepsInv(describe, c, i, world, ok); }
    case Allocate(sql) => AllocateKeepsInv(describe, c, sql);
    case _ =>
      if op.i < |c.statements| {
        var s := c.statements[op.i];
        assert Sound(describe, c, s);
        WithKeepsInv(describe, c, op.i,
          match op
          case Prepare(_, sql, markers) => Cleared(s).(sql := sql, markers := markers)
          case ChangeIpd(_, records, drops) => Changed(s, records, drops)
          case Close(_, shown) => Cleared(s).(shown := shown)
          case _ => s);
      }
  }

  /** A run in which every operation that leaves the epoch is silent. */
  ghost predicate IsRun(describe: Describer, states: seq<Conn>, ops: seq<Op>) {
    && |states| == |ops| + 1 && states[0] == Conn(false, 0, 1, 0, 0, [])
    && forall i :: 0 <= i < |ops| ==>
         && states[i + 1] == Apply(describe, states[i], ops[i])
         && (ops[i].Inspect? ==> Silent(describe, states[i].world, ops[i].world))
  }

  lemma {:induction false} RunKeepsInv(describe: Describer, states: seq<Conn>, ops: seq<Op>, k: nat)
    requires IsRun(describe, states, ops) && k < |states|
    ensures Inv(describe, states[k])
  {
    if k > 0 {
      hide Inv, Apply, Silent;
      RunKeepsInv(describe, states, ops, k - 1);
      ApplyKeepsInv(describe, states[k - 1], ops[k - 1]);
    }
  }

  lemma SoundHit(describe: Describer, c: Conn, s: Statement)
    requires Sound(describe, c, s) && Hit(c, s)
    ensures s.shown.Some? && s.shown.value.columns == Fresh(describe, c, s).columns
    ensures s.shown == Some(Fresh(describe, c, s)) <==> AllSettled(Answer(describe, c, s).natives, s.merged)
  {
    hide MergeAll, RepublishAll, AllSettled;
    MergeAllAgain(Answer(describe, c, s).natives, s.merged);
  }

  /** On every run, a cache hit shows the columns of a fresh description, and shows its parameters
      exactly when each was settled when it was published; no epoch-ending operation has run since, and
      no other statement of the connection can hit. */
  lemma HitsAreSound(describe: Describer, states: seq<Conn>, ops: seq<Op>, k: nat, i: nat)
    requires IsRun(describe, states, ops) && k < |states| && i < |states[k].statements|
    requires Hit(states[k], states[k].statements[i])
    ensures var c, s := states[k], states[k].statements[i];
      && s.shown.Some? && s.shown.value.columns == Fresh(describe, c, s).columns
      && (s.shown == Some(Fresh(describe, c, s)) <==> AllSettled(Answer(describe, c, s).natives, s.merged))
      && s.publishedAt == c.operations
      && forall j :: 0 <= j < |c.statements| && j != i ==> !Hit(c, c.statements[j])
  {
    hide Apply, Fresh, AllSettled, Silent;
    RunKeepsInv(describe, states, ops, k);
    var c := states[k];
    assert Sound(describe, c, c.statements[i]);
    SoundHit(describe, c, c.statements[i]);
  }

  const BOUND := Record(TinyInt, TinyInt, 3, 0, None, 1, "")
  const DESCRIBED := Native(Integer, 10, 0)

  /** One connected session whose statement, number 7, has one marker bound as TINYINT of length 3. */
  function BoundConn(world: int): Conn {
    Conn(true, 0, 1, world, 1, [Statement(7, 1, [BOUND], 1, false, 0, 0, None, [], 0)])
  }

  lemma ReachBound(describe: Describer, world: int) returns (states: seq<Conn>, ops: seq<Op>)
    ensures IsRun(describe, states, ops) && states[|states| - 1] == BoundConn(world)
  {
    hide Describe, Silent;
    ops := [Reconnect(world), Allocate(7), Prepare(0, 7, 1), ChangeIpd(0, [BOUND], true)];
    var c0 := Conn(false, 0, 1, 0, 0, []);
    var c1 := Conn(true, 0, 1, world, 1, []);
    var c2 := c1.(statements := [Statement(7, 0, [], 0, false, 0, 0, None, [], 0)]);
    var c3 := c1.(statements := [Statement(7, 1, [], 0, false, 0, 0, None, [], 0)]);
    states := [c0, c1, c2, c3, BoundConn(world)];
  }

  /** Describing it as INTEGER of size 10 shows 10; a fresh description would then show 3. */
  lemma BoundGoesStale(describe: Describer, world: int)
    requires describe(7, [Int32], world) == Description(0, [DESCRIBED])
    ensures var d := Describe(describe, BoundConn(world), 0, world, true);
      && |d.statements| == 1 && Hit(d, d.statements[0])
      && d.statements[0].shown == Some(Shown(0, [Merge(DESCRIBED, Some(BOUND))]))
      && Fresh(describe, d, d.statements[0]) == Shown(0, [Merge(DESCRIBED, Some(Republish(Merge(DESCRIBED, Some(BOUND)), Some(BOUND))))])
  {
    hide Merge, Republish;
    assert Types(1, [BOUND]) == [Int32];
    TypesStay(1, [DESCRIBED], [BOUND]);
    assert MergeAll([DESCRIBED], [BOUND]) == [Merge(DESCRIBED, Some(BOUND))];
    var after := Republish(Merge(DESCRIBED, Some(BOUND)), Some(BOUND));
    assert RepublishAll([DESCRIBED], [BOUND]) == [after];
    assert MergeAll([DESCRIBED], [after]) == [Merge(DESCRIBED, Some(after))];
  }

  /** A run on which a hit shows a parameter size of 10 where a fresh description would show 3. */
  lemma HitCanBeStale(describe: Describer, world: int) returns (states: seq<Conn>, ops: seq<Op>)
    requires describe(7, [Int32], world) == Description(0, [DESCRIBED])
    ensures IsRun(describe, states, ops)
    ensures var d := states[|states| - 1];
      && |d.statements| == 1 && Hit(d, d.statements[0]) && d.statements[0].shown != Some(Fresh(describe, d, d.statements[0]))
  {
    hide Describe, Silent, Fresh;
    states, ops := ReachBound(describe, world);
    BoundGoesStale(describe, world);
    TinyIntIsUnsettled();
    states := states + [Describe(describe, BoundConn(world), 0, world, true)];
    ops := ops + [DescribeOp(0, world, true)];
  }

  /** An inspection that is not silent about a statement leaves it hitting on the old description. */
  lemma InspectionMustBeSilent(describe: Describer, c: Conn, s: Statement, world: int)
    requires Sound(describe, c, s) && Hit(c, s) && s.shown == Some(Fresh(describe, c, s))
    ensures var d := Apply(describe, c, Inspect(world));
      Hit(d, s) && (s.shown == Some(Fresh(describe, d, s)) <==> Fresh(describe, d, s) == Fresh(describe, c, s))
  {
  }

  // ---- the statement's methods ----------------------------------------------------

  /** The parameter types of a description: only application bindings count. */
  method ParameterTypes(markers: nat, records: seq<Record>) returns (types: seq<Wire>)
    ensures types == Types(markers, records)
  {
    types := seq(markers, _ => Unspecified);
    var i := 0;
    while i < markers && i < |records|
      invariant i <= markers && i <= |records| && |types| == markers
      invariant forall k :: 0 <= k < markers ==> types[k] == if k < i then Types(markers, records)[k] else Unspecified
    {
      if records[i].boundType != NoType { types := types[i := WireType(records[i].boundType)]; }
      i := i + 1;
    }
  }

  class PreparedMetadata {
    const describe: Describer
    var conn: Conn

    constructor (describe: Describer)
      ensures this.describe == describe && conn == Conn(false, 0, 1, 0, 0, []) && Inv(describe, conn)
    {
      this.describe := describe;
      conn := Conn(false, 0, 1, 0, 0, []);
    }

    /** Ends the epoch; every backend call that may change the session starts with it. */
    method InvalidateEpoch()
      modifies this
      ensures conn == old(conn).(epoch := 0)
    {
      if conn.epoch != 0 { conn := conn.(epoch := 0); }
    }

    /** After it no statement hits, whatever the session became. */
    method BackendCall(world: int)
      requires Inv(describe, conn)
      modifies this
      ensures Inv(describe, conn) && conn == Operate(old(conn), world)
      ensures forall i :: 0 <= i < |conn.statements| ==> !Hit(conn, conn.statements[i])
    {
      OperateKeepsInv(describe, conn, world, conn.lease);
      InvalidateEpoch();
      conn := conn.(world := world, operations := conn.operations + 1);
    }

    /** On a miss, success shows the answer merged with the records bound at the call; on a hit nothing changes. */
    method DescribePrepared(i: nat, world: int, ok: bool) returns (success: bool)
      requires Inv(describe, conn) && i < |conn.statements|
      modifies this
      ensures Inv(describe, conn) && conn == Describe(describe, old(conn), i, world, ok)
      ensures |conn.statements| == |old(conn).statements|
      ensures Hit(old(conn), old(conn).statements[i]) ==> success && conn == old(conn)
      ensures !Hit(old(conn), old(conn).statements[i]) ==>
        var s := old(conn).statements[i];
        var answer := describe(s.sql, Types(s.markers, s.records), world);
        && (success <==> ok && |answer.natives| == s.markers)
        && (success ==> conn.statements[i].shown.Some? && conn.statements[i].shown.value.columns == answer.columns)
      ensures success && !Hit(old(conn), old(conn).statements[i]) ==>
        conn.statements[i].shown == Some(Fresh(describe, Operate(old(conn), world), old(conn).statements[i]))
    {
      hide Inv, MergeAll, RepublishAll;
      DescribeKeepsInv(describe, conn, i, world, ok);
      var s := conn.statements[i];
      if s.available && conn.lease && conn.epoch != 0 && s.epoch == conn.epoch && s.ipdRevision == s.revision {
        return true;
      }
      var types := ParameterTypes(s.markers, s.records);
      BackendCall(world);
      if !ok { return false; }
      var answer := describe(s.sql, types, world);
      if |answer.natives| != s.markers { return false; }
      var parameters, records := MergeParameters(answer.natives, s.records);
      if conn.lease { conn := conn.(epoch := conn.nextEpoch, nextEpoch := conn.nextEpoch + 1); }
      s := s.(shown := Some(Shown(answer.columns, parameters)), merged := s.records);
      s := s.(records := records, revision := s.revision + 1);
      s := s.(available := true, epoch := conn.epoch, ipdRevision := s.revision, publishedAt := conn.operations);
      conn := conn.(statements := conn.statements[i := s]);
      return true;
    }
  }
}
