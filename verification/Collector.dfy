/** The pending-input object of a statement, updated in place by SQLPutData and SQLParamData. */
module Collector {
  import opened Options
  import opened MachineWords
  import opened DataAtExecution
  import opened DeferredRuns

  /** The length of a null-terminated argument, refused as soon as it exceeds what is available. */
  method ScanTerminated(memory: seq<int>, unit: nat, available: nat) returns (units: Option<nat>)
    requires 0 in memory && (unit == 1 || unit == 2)
    ensures units.Some? <==> unit * Terminator(memory, 0) <= available
    ensures units.Some? ==> units.value == Terminator(memory, 0)
  {
    var n, bytes := 0, 0;
    assert Terminator(memory, 0) < |memory|;
    while memory[n] != 0
      invariant n <= Terminator(memory, 0) && bytes == unit * n <= available
      decreases Terminator(memory, 0) - n
    {
      if unit > available - bytes { return None; }
      n, bytes := n + 1, bytes + unit;
    }
    return Some(n);
  }

  class PendingInput {
    const lim: Limits
    const isArray: bool
    const conv: Converter
    var pending: Option<Input>

    ghost predicate Valid()
      reads this
    {
      pending.Some? ==> Boundary(lim, pending.value)
    }

    constructor (lim: Limits, isArray: bool, conv: Converter, first: Input)
      requires Boundary(lim, first)
      ensures Valid() && pending == Some(first)
      ensures this.lim == lim && this.isArray == isArray && this.conv == conv
    {
      this.lim, this.isArray, this.conv := lim, isArray, conv;
      pending := Some(first);
    }

    /** The units of an argument, or none when it is malformed or too long. */
    method Measure(p: Piece, arg: Argument, available: nat) returns (units: Option<seq<int>>)
      requires arg.length != SQL_NULL_DATA && Readable(arg, Unit(p))
      ensures units.Some? <==> Acceptable(p, arg) && Unit(p) * |Payload(arg, Unit(p))| <= available
      ensures units.Some? ==> units.value == Payload(arg, Unit(p))
    {
      if arg.length < 0 && arg.length != SQL_NTS { return None; }
      if !arg.pointer && arg.length != 0 { return None; }
      if arg.length == SQL_NTS && p.kind.Binary? { return None; }
      if arg.length == SQL_NTS {
        var n := ScanTerminated(arg.memory, Unit(p), available);
        return if n.None? then None else Some(arg.memory[..n.value]);
      }
      if arg.length % Unit(p) != 0 { return None; }
      var count := arg.length / Unit(p);
      if arg.length == 0 { return Some([]); }
      if arg.length > available { return None; }
      return Some(arg.memory[..count]);
    }

    /** Appends to the requested piece; false when the whole execution must be abandoned. */
    method Append(arg: Argument) returns (ok: bool)
      requires Valid() && pending.Some? && pending.value.requested
      requires Readable(arg, Unit(pending.value.pieces[pending.value.ordinal]))
      modifies this`pending
      ensures ok <==> Put(lim, old(pending.value), arg).Some?
      ensures pending == if ok then Put(lim, old(pending.value), arg) else old(pending)
    {
      var input := pending.value;
      var piece := input.pieces[input.ordinal];
      if (arg.length == SQL_NULL_DATA && piece.supplied) || (piece.isNull && arg.length != SQL_NULL_DATA) ||
         (piece.isNull && piece.supplied)
      {
        return false;
      }
      if arg.length == SQL_NULL_DATA {
        piece := piece.(isNull := true, supplied := true);
      } else {
        var used := Unit(piece) * |piece.data|;
        if used > lim.perParameter || input.bytes > lim.total || input.raw > lim.total - input.bytes { return false; }
        var available := Min(lim.perParameter - used, lim.total - input.bytes - input.raw);
        var units := Measure(piece, arg, available);
        if units.None? { return false; }
        input := input.(raw := input.raw + Unit(piece) * |units.value|);
        SizeOfAppend(piece, units.value);
        piece := piece.(data := piece.data + units.value, supplied := true);
      }
      pending := Some(input.(pieces := input.pieces[input.ordinal := piece]));
      return true;
    }

    static lemma SizeOfAppend(p: Piece, units: seq<int>)
      ensures PieceSize(p.(data := p.data + units, supplied := true)) == PieceSize(p) + Unit(p) * |units|
    {
    }

    method PutDataCall(arg: Argument, interrupt: Interrupt) returns (reply: Reply)
      requires Valid()
      requires pending.Some? && pending.value.requested ==>
        Readable(arg, Unit(pending.value.pieces[pending.value.ordinal]))
      modifies this`pending
      ensures Valid() && (pending, reply) == PutData(lim, old(pending), arg, interrupt)
      ensures reply.Success? ==>
        && old(pending).Some? && pending.Some? && old(pending).value.requested && pending.value.ordinal == old(pending).value.ordinal
        && |pending.value.pieces| == |old(pending).value.pieces|
        && var p, q := old(pending).value.pieces[pending.value.ordinal], pending.value.pieces[pending.value.ordinal];
           && p.data <= q.data && Denotes(arg, Unit(p), q.data[|p.data|..])
           && (arg.length >= 0 && arg.pointer ==> pending.value.raw == old(pending).value.raw + arg.length)
    {
      hide Put, Boundary, Unit, Denotes, PieceSize;
      if pending.None? || !pending.value.requested { return OutOfSequence; }
      if interrupt.Before? { pending := None; return Failed; }
      PutKeepsBoundary(lim, pending.value, arg);
      ghost var before := pending.value;
      var ok := Append(arg);
      if !ok || interrupt.After? { pending := None; return Failed; }
      PutAppends(lim, before, arg, interrupt);
      return Success;
    }

    /** Converts the requested piece and releases its raw bytes. */
    method Materialize() returns (ok: bool)
      requires Valid() && pending.Some? && pending.value.requested
      modifies this`pending
      ensures ok <==> Finish(lim, isArray, conv, old(pending.value)).Some?
      ensures pending == if ok then Finish(lim, isArray, conv, old(pending.value)) else old(pending)
    {
      var input := pending.value;
      var piece := input.pieces[input.ordinal];
      var raw := Unit(piece) * |piece.data|;
      if !isArray { input := input.(raw := input.raw - raw); }
      var budget := input.bytes + if isArray then input.raw else 0;
      var value := Null;
      if !piece.isNull {
        var limit := Min(lim.perParameter, lim.total - budget);
        var converted := conv(input.ordinal, piece.data);
        if converted.None? || |converted.value| > limit { return false; }
        budget := budget + |converted.value|;
        value := Bound(converted.value);
      }
      if isArray {
        input := input.(bytes := budget - input.raw);
        input := input.(raw := input.raw - raw);
      } else {
        input := input.(bytes := budget);
      }
      if input.raw > lim.total - input.bytes { return false; }
      pending := Some(input.(values := input.values[input.ordinal := value],
                             pieces := input.pieces[input.ordinal := piece.(data := [])],
                             ordinal := input.ordinal + 1, requested := false));
      return true;
    }

    /** Skips to the next deferred parameter and requests it, or yields the values. */
    method RequestNext() returns (reply: Reply)
      requires Valid() && pending.Some? && !pending.value.requested
      modifies this`pending
      ensures Valid() && (pending, reply) == Advance(old(pending.value))
    {
      AdvanceKeepsBoundary(lim, pending.value);
      var input := pending.value;
      var ordinal := input.ordinal;
      while ordinal < |input.pieces| && !input.pieces[ordinal].deferred
        invariant input.ordinal <= ordinal <= |input.pieces|
        invariant NextDeferred(input.pieces, ordinal) == NextDeferred(input.pieces, input.ordinal)
      {
        ordinal := ordinal + 1;
      }
      if ordinal < |input.pieces| {
        pending := Some(input.(ordinal := ordinal, requested := true));
        return NeedData(input.pieces[ordinal].token);
      }
      pending := None;
      return Execute(input.values);
    }

    method ParamDataCall(tokenGiven: bool, refused: bool, interrupt: Interrupt) returns (reply: Reply)
      requires Valid()
      modifies this`pending
      ensures Valid() && (pending, reply) == ParamData(lim, isArray, conv, old(pending), tokenGiven, refused, interrupt)
    {
      hide Finish, Advance;
      if pending.None? { return OutOfSequence; }
      if interrupt.Before? || !tokenGiven { pending := None; return Failed; }
      if pending.value.requested {
        if !pending.value.pieces[pending.value.ordinal].supplied { return OutOfSequence; }
        if refused { pending := None; return Failed; }
        FinishKeepsBoundary(lim, isArray, conv, pending.value);
        var ok := Materialize();
        if !ok { pending := None; return Failed; }
      }
      if interrupt.After? { pending := None; return Failed; }
      reply := RequestNext();
    }
  }

  // ---- starting a collection ------------------------------------------------------

  const SQL_DATA_AT_EXEC := -2
  const SQL_LEN_DATA_AT_EXEC_OFFSET := -100

  /** A bound parameter as snapshotted when execution starts. */
  datatype Binding = Binding(isNull: bool, length: int, token: int, kind: Kind, supported: bool)

  datatype StartResult = NothingDeferred | Rejected | Collecting(first: Input)

  predicate IsDeferred(b: Binding) {
    !b.isNull && (b.length == SQL_DATA_AT_EXEC || b.length <= SQL_LEN_DATA_AT_EXEC_OFFSET)
  }

  function Snapshot(b: Binding): Piece { Piece(IsDeferred(b), b.token, b.kind, false, false, []) }

  method SnapshotAll(bindings: seq<Binding>) returns (pieces: seq<Piece>, deferred: bool, supported: bool)
    ensures |pieces| == |bindings| && forall i :: 0 <= i < |bindings| ==> pieces[i] == Snapshot(bindings[i])
    ensures deferred <==> exists i :: 0 <= i < |bindings| && IsDeferred(bindings[i])
    ensures supported <==> forall i :: 0 <= i < |bindings| && IsDeferred(bindings[i]) ==> bindings[i].supported
  {
    pieces, deferred, supported := [], false, true;
    for i := 0 to |bindings|
      invariant |pieces| == i && forall k :: 0 <= k < i ==> pieces[k] == Snapshot(bindings[k])
      invariant deferred <==> exists k :: 0 <= k < i && IsDeferred(bindings[k])
      invariant supported <==> forall k :: 0 <= k < i && IsDeferred(bindings[k]) ==> bindings[k].supported
    {
      var b := bindings[i];
      pieces := pieces + [Snapshot(b)];
      deferred := deferred || IsDeferred(b);
      supported := supported && (IsDeferred(b) ==> b.supported);
    }
  }

  /** Converts the ordinary parameters under the shared byte budget. */
  method ConvertOrdinary(lim: Limits, bindings: seq<Binding>, ordinary: nat -> Option<Value>)
    returns (values: Option<seq<Value>>, bytes: nat)
    ensures values.Some? ==>
      && |values.value| == |bindings| && bytes == TotalSize(values.value) <= lim.total
      && forall i :: 0 <= i < |bindings| ==>
           if IsDeferred(bindings[i]) then values.value[i].Absent? else ordinary(i) == Some(values.value[i])
    ensures values.None? ==> bytes <= lim.total && exists i ::
      && 0 <= i < |bindings| && !IsDeferred(bindings[i])
      && (ordinary(i).None? || ValueSize(ordinary(i).value) > Min(lim.perParameter, lim.total - bytes))
  {
    var out: seq<Value> := [];
    bytes := 0;
    for i := 0 to |bindings|
      invariant |out| == i && bytes == TotalSize(out) <= lim.total
      invariant forall k :: 0 <= k < i ==>
        if IsDeferred(bindings[k]) then out[k].Absent? else ordinary(k) == Some(out[k])
    {
      var value := Absent;
      if !IsDeferred(bindings[i]) {
        var converted := ordinary(i);
        if converted.None? || ValueSize(converted.value) > Min(lim.perParameter, lim.total - bytes) { return None, bytes; }
        value := converted.value;
        bytes := bytes + ValueSize(value);
      }
      assert (out + [value])[..|out|] == out;
      out := out + [value];
    }
    return Some(out), bytes;
  }

  /** Snapshots the bindings and converts the ordinary ones; `ordinary` is what the converter makes
      of an ordinary parameter. */
  method StartCollection(lim: Limits, bindings: seq<Binding>, ordinary: nat -> Option<Value>) returns (r: StartResult)
    ensures r.NothingDeferred? <==> forall i :: 0 <= i < |bindings| ==> !IsDeferred(bindings[i])
    ensures r.Collecting? ==> Started(lim, r.first) && |r.first.pieces| == |bindings|
    ensures r.Collecting? ==> forall i :: 0 <= i < |bindings| ==>
      && r.first.pieces[i] == Snapshot(bindings[i])
      && (r.first.pieces[i].deferred <==>
            !bindings[i].isNull && (bindings[i].length == -2 || bindings[i].length <= -100))
      && r.first.pieces[i].token == bindings[i].token && r.first.pieces[i].data == []
      && if IsDeferred(bindings[i]) then bindings[i].supported && r.first.values[i].Absent?
         else ordinary(i) == Some(r.first.values[i])
  {
    var pieces, deferred, supported := SnapshotAll(bindings);
    if !deferred { return NothingDeferred; }
    if !supported { return Rejected; }
    var values, bytes := ConvertOrdinary(lim, bindings, ordinary);
    if values.None? { return Rejected; }
    return Collecting(Input(pieces, values.value, 0, bytes, 0, false));
  }
}
