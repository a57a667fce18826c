/** What describing a prepared statement shows, and when the cache answers without the session. */
module MetadataLaws {
  import opened Options
  import opened ParameterMerge
  import opened MetadataCache

  // ---- one parameter ----------------------------------------------------------------

  /** A parameter without an earlier record, or with one of an unrelated type, is shown as described. */
  lemma UnrelatedIsNative(n: Native, prior: Option<Record>)
    requires prior.None? ||
      (prior.value.concise != n.sqlType && !(prior.value.concise in {Decimal, Numeric} && n.sqlType in {Decimal, Numeric}))
    ensures Merge(n, prior) == Parameter(n.sqlType, n.columnSize, n.digits, 2, "")
  {
  }

  /** A parameter of the recorded type keeps the record's nullability and name, and takes its size from
      the bound precision of an exact or approximate number, else from a bound length, and its digits from
      the bound scale of an exact number, a time or a timestamp; what was not bound is as described. */
  lemma BoundDimensionsShow(n: Native, r: Record)
    requires r.concise == n.sqlType || (r.concise in {Decimal, Numeric} && n.sqlType in {Decimal, Numeric})
    ensures var p := Merge(n, Some(r));
      && p.sqlType == n.sqlType && p.nullable == r.nullable && p.name == r.name
      && (n.sqlType in {Decimal, Numeric, Float, Real, Double} && r.boundPrecision > 0 ==> p.columnSize == r.boundPrecision)
      && (n.sqlType !in {Decimal, Numeric, Float, Real, Double} && r.boundLength > 0 ==> p.columnSize == r.boundLength)
      && (r.boundPrecision <= 0 && r.boundLength > 0 ==> p.columnSize == r.boundLength)
      && (r.boundPrecision <= 0 && r.boundLength == 0 ==> p.columnSize == n.columnSize)
      && (n.sqlType in {Decimal, Numeric, Time, Timestamp} && r.boundScale.Some? ==> p.digits == r.boundScale.value)
      && (n.sqlType !in {Decimal, Numeric, Time, Timestamp} || r.boundScale.None? ==> p.digits == n.digits)
  {
  }

  // ---- one description --------------------------------------------------------------

  /** What the session is asked with and answers. */
  function Asked(describe: Describer, s: Statement, world: int): Description {
    describe(s.sql, Types(s.markers, s.records), world)
  }

  lemma AskedWithBindings(s: Statement, k: nat)
    requires k < s.markers
    ensures k >= |s.records| || s.records[k].boundType == NoType ==> Types(s.markers, s.records)[k] == Unspecified
    ensures k < |s.records| && s.records[k].boundType.Character? ==> Types(s.markers, s.records)[k] == Text
  {
  }

  /** A successful description shows the session's own columns and one parameter of the described type for
      each marker, and publishes under the present count of epoch-ending operations. */
  lemma DescribeShows(describe: Describer, c: Conn, i: nat, world: int)
    requires i < |c.statements| && !Hit(c, c.statements[i])
    requires |Asked(describe, c.statements[i], world).natives| == c.statements[i].markers
    ensures var s, t := c.statements[i], Describe(describe, c, i, world, true);
      var answer := Asked(describe, s, world);
      && |t.statements| == |c.statements| && t.world == world && t.operations == c.operations + 1
      && t.statements[i].shown.Some? && t.statements[i].shown.value.columns == answer.columns
      && |t.statements[i].shown.value.parameters| == s.markers
      && (forall k :: 0 <= k < s.markers ==> t.statements[i].shown.value.parameters[k].sqlType == answer.natives[k].sqlType)
      && (forall k :: |s.records| <= k < s.markers ==>
            t.statements[i].shown.value.parameters[k] ==
              Parameter(answer.natives[k].sqlType, answer.natives[k].columnSize, answer.natives[k].digits, 2, ""))
      && (forall j :: 0 <= j < |c.statements| && j != i ==> t.statements[j] == c.statements[j])
  {
    hide RepublishAll;
  }

  /** A failed or miscounted description ends the epoch and leaves every statement as it was. */
  lemma RefusedLeavesStatements(describe: Describer, c: Conn, i: nat, world: int, ok: bool)
    requires i < |c.statements| && !Hit(c, c.statements[i])
    requires !ok || |Asked(describe, c.statements[i], world).natives| != c.statements[i].markers
    ensures var t := Describe(describe, c, i, world, ok);
      t.statements == c.statements && t.epoch == 0 && t.nextEpoch == c.nextEpoch
  {
    hide RepublishAll, MergeAll;
  }

  /** The cache works: after a successful description the same statement hits exactly on a connected
      session, and describing it once more asks nothing and changes nothing. */
  lemma DescribedHits(describe: Describer, c: Conn, i: nat, world: int)
    requires 0 < c.nextEpoch && i < |c.statements| && !Hit(c, c.statements[i])
    requires |Asked(describe, c.statements[i], world).natives| == c.statements[i].markers
    ensures var t := Describe(describe, c, i, world, true);
      && |t.statements| == |c.statements|
      && (Hit(t, t.statements[i]) <==> c.lease)
      && (c.lease ==> forall later, ok :: Describe(describe, t, i, later, ok) == t)
  {
    hide RepublishAll, MergeAll;
  }

  /** A statement keeps hitting through whatever neither ends the epoch nor touches it. */
  lemma HitLasts(describe: Describer, c: Conn, i: nat, op: Op)
    requires i < |c.statements| && Hit(c, c.statements[i])
    requires match op
      case Inspect(_) => true
      case Allocate(_) => true
      case DescribeOp(j, _, _) => j == i || j >= |c.statements|
      case Prepare(j, _, _) => j != i
      case ChangeIpd(j, _, _) => j != i
      case Close(j, _) => j != i
      case _ => false
    ensures var t := Apply(describe, c, op);
      i < |t.statements| && t.statements[i] == c.statements[i] && Hit(t, t.statements[i])
  {
  }

  /** It stops hitting with every operation that ends the epoch, and when its own text, records or result
      change. */
  lemma HitEnds(describe: Describer, c: Conn, i: nat, op: Op)
    requires Inv(describe, c) && i < |c.statements| && Hit(c, c.statements[i])
    requires match op
      case Backend(_) => true
      case Lose => true
      case Reconnect(_) => true
      case DescribeOp(j, _, _) => j < |c.statements| && j != i
      case Prepare(j, _, _) => j == i
      case ChangeIpd(j, _, _) => j == i
      case Close(j, _) => j == i
      case _ => false
    ensures var t := Apply(describe, c, op);
      i < |t.statements| && !Hit(t, t.statements[i])
  {
    hide RepublishAll, MergeAll, Answer;
    assert Sound(describe, c, c.statements[i]);
    if op.DescribeOp? { assert Sound(describe, c, c.statements[op.i]); }
  }

  /** Over every run, a hit shows the very columns the session would describe now. */
  lemma HitShowsColumns(describe: Describer, states: seq<Conn>, ops: seq<Op>, k: nat, i: nat)
    requires IsRun(describe, states, ops) && k < |states| && i < |states[k].statements|
    requires Hit(states[k], states[k].statements[i])
    ensures var c, s := states[k], states[k].statements[i];
      s.shown.Some? && s.shown.value.columns == Asked(describe, s, c.world).columns
  {
    hide Inv, IsRun;
    HitsAreSound(describe, states, ops, k, i);
  }
}
