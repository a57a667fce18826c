/** How a described parameter is merged with the record the implementation parameter descriptor (IPD)
    held for it, and when merging again gives the same. */
module ParameterMerge {
  import opened Options

  datatype SqlType =
    | NoType | TinyInt | SmallInt | Integer | BigInt | Real | Float | Double | Decimal | Numeric | Bit
    | Date | Time | Timestamp | Character(width: nat) | Bytes(width: nat) | OtherType(code: int)

  datatype Wire =
    | Unspecified | Text | Int16 | Int32 | Int64 | Float32 | Float64 | NumericWire | Boolean
    | DateWire | TimeWire | TimestampWire | Binary

  /** parameter_type_for, for a parameter without a C type. */
  function WireType(t: SqlType): Wire {
    match t
    case Character(_) => Text
    case TinyInt => Int32
    case Integer => Int32
    case SmallInt => Int16
    case BigInt => Int64
    case Real => Float32
    case Float => Float64
    case Double => Float64
    case Decimal => NumericWire
    case Numeric => NumericWire
    case Bit => Boolean
    case Date => DateWire
    case Time => TimeWire
    case Timestamp => TimestampWire
    case Bytes(_) => Binary
    case _ => Unspecified
  }

  /** An IPD record: its type, what the application bound, and what a description left behind. */
  datatype Record = Record(
    concise: SqlType, boundType: SqlType, boundLength: nat, boundPrecision: int, boundScale: Option<int>,
    nullable: int, name: string)

  /** A parameter as the data source describes it. */
  datatype Native = Native(sqlType: SqlType, columnSize: nat, digits: int)

  /** A parameter as SQLDescribeParam shows it. */
  datatype Parameter = Parameter(sqlType: SqlType, columnSize: nat, digits: int, nullable: int, name: string)

  const SQL_NULLABLE_UNKNOWN := 2

  predicate Exact(t: SqlType) { t.Decimal? || t.Numeric? }

  predicate Precise(t: SqlType) { Exact(t) || t.Float? || t.Real? || t.Double? }

  predicate Scaled(t: SqlType) { Exact(t) || t.Time? || t.Timestamp? }

  predicate Compatible(prior: SqlType, described: SqlType) {
    prior == described || (Exact(prior) && Exact(described))
  }

  /** parameter_metadata_for. */
  function Merge(n: Native, prior: Option<Record>): Parameter {
    if prior.None? || !Compatible(prior.value.concise, n.sqlType) then
      Parameter(n.sqlType, n.columnSize, n.digits, SQL_NULLABLE_UNKNOWN, "")
    else
      var r := prior.value;
      var size := if Precise(n.sqlType) && r.boundPrecision > 0 then r.boundPrecision
                  else if r.boundLength > 0 then r.boundLength else n.columnSize;
      var digits := if Scaled(n.sqlType) && r.boundScale.Some? then r.boundScale.value else n.digits;
      Parameter(n.sqlType, size, digits, r.nullable, r.name)
  }

  /** The record a description leaves: the described type, with the application's bindings kept. */
  function Republish(p: Parameter, prior: Option<Record>): Record {
    match prior
    case None => Record(p.sqlType, NoType, 0, 0, None, p.nullable, p.name)
    case Some(r) => Record(p.sqlType, r.boundType, r.boundLength, r.boundPrecision, r.boundScale, p.nullable, p.name)
  }

  /** The bound dimensions that apply to a described type, where the application gave any. */
  function SizeHint(t: SqlType, r: Record): Option<nat> {
    if Precise(t) && r.boundPrecision > 0 then Some(r.boundPrecision)
    else if r.boundLength > 0 then Some(r.boundLength) else None
  }

  function DigitsHint(t: SqlType, r: Record): Option<int> {
    if Scaled(t) then r.boundScale else None
  }

  /** No earlier record, one of a compatible type, or bound dimensions that change nothing. */
  predicate Settled(n: Native, prior: Option<Record>) {
    || prior.None? || Compatible(prior.value.concise, n.sqlType)
    || (SizeHint(n.sqlType, prior.value) in {None, Some(n.columnSize)}
        && DigitsHint(n.sqlType, prior.value) in {None, Some(n.digits)})
  }

  /** Describing a parameter again shows the same exactly when the first description was settled. */
  lemma MergeAgain(n: Native, prior: Option<Record>)
    ensures Merge(n, Some(Republish(Merge(n, prior), prior))) == Merge(n, prior) <==> Settled(n, prior)
  {
  }

  /** A parameter bound as TINYINT with length 3 and described as INTEGER: the first description shows
      the native size, the second the bound one. */
  lemma TinyIntIsUnsettled()
    ensures var r, n := Record(TinyInt, TinyInt, 3, 0, None, 1, ""), Native(Integer, 10, 0);
      && WireType(r.boundType) == WireType(n.sqlType)
      && Merge(n, Some(r)).columnSize == 10
      && Merge(n, Some(Republish(Merge(n, Some(r)), Some(r)))).columnSize == 3
  {
  }

  // ---- whole descriptors ----------------------------------------------------------

  function Prior(records: seq<Record>, i: nat): Option<Record> {
    if i < |records| then Some(records[i]) else None
  }

  /** The types sent with a description: bound ones, unspecified where nothing is bound. */
  function Types(markers: nat, records: seq<Record>): (t: seq<Wire>)
    ensures |t| == markers
  {
    seq(markers, i requires 0 <= i =>
      if i < |records| && records[i].boundType != NoType then WireType(records[i].boundType) else Unspecified)
  }

  function MergeAll(natives: seq<Native>, records: seq<Record>): seq<Parameter> {
    seq(|natives|, i requires 0 <= i < |natives| => Merge(natives[i], Prior(records, i)))
  }

  function RepublishAll(natives: seq<Native>, records: seq<Record>): seq<Record> {
    seq(|natives|, i requires 0 <= i < |natives| =>
      Republish(Merge(natives[i], Prior(records, i)), Prior(records, i)))
  }

  predicate AllSettled(natives: seq<Native>, records: seq<Record>) {
    forall i :: 0 <= i < |natives| ==> Settled(natives[i], Prior(records, i))
  }

  /** Publishing a description keeps the types the next one would send. */
  lemma TypesStay(markers: nat, natives: seq<Native>, records: seq<Record>)
    requires |natives| == markers
    ensures Types(markers, RepublishAll(natives, records)) == Types(markers, records)
  {
  }

  lemma MergeAllAgain(natives: seq<Native>, records: seq<Record>)
    ensures MergeAll(natives, RepublishAll(natives, records)) == MergeAll(natives, records) <==>
            AllSettled(natives, records)
  {
    var again, once := MergeAll(natives, RepublishAll(natives, records)), MergeAll(natives, records);
    forall i | 0 <= i < |natives| ensures again[i] == once[i] <==> Settled(natives[i], Prior(records, i)) {
      MergeAgain(natives[i], Prior(records, i));
    }
  }

  /** The staging loops of a description: parameters shown and records left, one marker at a time. */
  method MergeParameters(natives: seq<Native>, records: seq<Record>)
    returns (parameters: seq<Parameter>, republished: seq<Record>)
    ensures parameters == MergeAll(natives, records) && republished == RepublishAll(natives, records)
  {
    hide Merge, Republish;
    parameters, republished := [], [];
    for i := 0 to |natives|
      invariant |parameters| == i && parameters == MergeAll(natives, records)[..i]
    {
      parameters := parameters + [Merge(natives[i], Prior(records, i))];
    }
    for i := 0 to |natives|
      invariant |republished| == i && republished == RepublishAll(natives, records)[..i]
    {
      republished := republished + [Republish(parameters[i], Prior(records, i))];
    }
  }
}
