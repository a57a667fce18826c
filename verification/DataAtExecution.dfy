/** Data-at-execution: the values, the calls and what each call does to a collection. */
module DataAtExecution {
  import opened Options
  import opened MachineWords

  const SQL_NULL_DATA := -1
  const SQL_NTS := -3

  datatype Kind = Narrow | Wide | Binary

  /** One parameter of a set. `data` holds code units: two bytes each when wide. */
  datatype Piece = Piece(deferred: bool, token: int, kind: Kind, supplied: bool, isNull: bool, data: seq<int>)

  datatype Value = Absent | Null | Bound(bytes: seq<int>)

  datatype Limits = Limits(perParameter: nat, total: nat)

  datatype Input = Input(pieces: seq<Piece>, values: seq<Value>, ordinal: nat, bytes: nat, raw: nat, requested: bool)

  /** The converter: the native bytes of a parameter from the units collected for it. */
  type Converter = (nat, seq<int>) -> Option<seq<int>>

  /** What a deadline, a lost session or a cancellation claim does to one call. */
  datatype Interrupt = Undisturbed | Before | After

  /** SQLPutData's argument: a length, whether the pointer is non-null, and the units behind it. */
  datatype Argument = Argument(length: int, pointer: bool, memory: seq<int>)

  datatype Call =
    | PutCall(arg: Argument, putInterrupt: Interrupt)
    | ParamCall(tokenGiven: bool, refused: bool, interrupt: Interrupt)

  datatype Reply = Success | OutOfSequence | Failed | NeedData(token: int) | Execute(values: seq<Value>)

  function Unit(p: Piece): (u: nat)
    ensures u == 1 || u == 2
  {
    if p.kind.Wide? then 2 else 1
  }

  function PieceSize(p: Piece): nat { Unit(p) * |p.data| }

  function ValueSize(v: Value): nat { if v.Bound? then |v.bytes| else 0 }

  function TotalSize(values: seq<Value>): nat {
    if values == [] then 0 else TotalSize(values[..|values| - 1]) + ValueSize(values[|values| - 1])
  }

  /** The first zero unit at or after i. */
  function Terminator(memory: seq<int>, i: nat): (r: nat)
    requires i <= |memory|
    ensures i <= r <= |memory|
    ensures forall k :: i <= k < r ==> memory[k] != 0
    ensures r < |memory| ==> memory[r] == 0
    decreases |memory| - i
  {
    if i == |memory| || memory[i] == 0 then i else Terminator(memory, i + 1)
  }

  /** The units an argument denotes. */
  function Payload(arg: Argument, unit: nat): seq<int>
    requires unit == 1 || unit == 2
  {
    if arg.length == SQL_NTS then arg.memory[..Terminator(arg.memory, 0)]
    else arg.memory[..Min(Max(arg.length, 0) / unit, |arg.memory|)]
  }

  /** The application owns readable memory: a terminator, or the units its length announces. */
  predicate Readable(arg: Argument, unit: nat)
    requires unit == 1 || unit == 2
  {
    arg.pointer ==> if arg.length == SQL_NTS then 0 in arg.memory else arg.length <= unit * |arg.memory|
  }

  predicate Concatenable(p: Piece, length: int) {
    if length == SQL_NULL_DATA then !p.supplied else !p.isNull
  }

  predicate Acceptable(p: Piece, arg: Argument) {
    && (arg.length >= 0 || (arg.length == SQL_NTS && !p.kind.Binary?))
    && (arg.pointer || arg.length == 0)
    && (arg.length >= 0 ==> arg.length % Unit(p) == 0)
  }

  /** One SQLPutData on the requested piece, with `available` bytes left for it. */
  function PutPiece(p: Piece, arg: Argument, available: nat): (r: Option<Piece>) {
    if !Concatenable(p, arg.length) then None
    else if arg.length == SQL_NULL_DATA then Some(p.(supplied := true, isNull := true))
    else if !Acceptable(p, arg) || Unit(p) * |Payload(arg, Unit(p))| > available then None
    else Some(p.(supplied := true, data := p.data + Payload(arg, Unit(p))))
  }

  function Available(lim: Limits, inp: Input): nat
    requires Boundary(lim, inp) && inp.requested
  {
    Min(lim.perParameter - PieceSize(inp.pieces[inp.ordinal]), lim.total - inp.bytes - inp.raw)
  }

  /** The first parameter not reached yet. */
  function Ahead(inp: Input): nat { if inp.requested then inp.ordinal + 1 else inp.ordinal }

  /** What holds between calls: converted and raw bytes fit the total, raw bytes are those of the
      requested piece, converted bytes are those of the values. */
  ghost predicate Boundary(lim: Limits, inp: Input) {
    && |inp.values| == |inp.pieces| && inp.ordinal <= |inp.pieces|
    && (inp.requested ==>
          && inp.ordinal < |inp.pieces| && inp.pieces[inp.ordinal].deferred
          && inp.values[inp.ordinal].Absent?
          && PieceSize(inp.pieces[inp.ordinal]) <= lim.perParameter)
    && inp.raw == (if inp.requested then PieceSize(inp.pieces[inp.ordinal]) else 0)
    && inp.bytes == TotalSize(inp.values)
    && inp.bytes + inp.raw <= lim.total
    && (forall i :: Ahead(inp) <= i < |inp.pieces| && inp.pieces[i].deferred ==>
          Untouched(inp.pieces[i]) && inp.values[i].Absent?)
  }

  predicate Untouched(p: Piece) { !p.supplied && !p.isNull && p.data == [] }

  function Put(lim: Limits, inp: Input, arg: Argument): (r: Option<Input>)
    requires Boundary(lim, inp) && inp.requested
  {
    var p := inp.pieces[inp.ordinal];
    match PutPiece(p, arg, Available(lim, inp))
    case None => None
    case Some(q) => Some(inp.(pieces := inp.pieces[inp.ordinal := q], raw := PieceSize(q)))
  }

  lemma PutKeepsBoundary(lim: Limits, inp: Input, arg: Argument)
    requires Boundary(lim, inp) && inp.requested
    ensures Put(lim, inp, arg).Some? ==> Boundary(lim, Put(lim, inp, arg).value)
  {
    var p := inp.pieces[inp.ordinal];
    var units := Payload(arg, Unit(p));
    assert |p.data + units| == |p.data| + |units|;
    assert Unit(p) * |p.data + units| == Unit(p) * |p.data| + Unit(p) * |units|;
  }

  /** The value a finished piece becomes, when the converter accepts it within the budget. */
  function ValueOf(conv: Converter, i: nat, p: Piece, limit: nat): Option<Value> {
    if p.isNull then Some(Null)
    else match conv(i, p.data)
      case None => None
      case Some(b) => if |b| > limit then None else Some(Bound(b))
  }

  /** Bytes counted against the total while the requested piece is converted: a scalar piece is
      released first, an array piece coexists with its value. */
  function Budget(array_: bool, inp: Input): nat {
    inp.bytes + if array_ then inp.raw else 0
  }

  function ConversionLimit(lim: Limits, array_: bool, inp: Input): (l: nat)
    requires Boundary(lim, inp)
  {
    Min(lim.perParameter, lim.total - Budget(array_, inp))
  }

  function Finish(lim: Limits, array_: bool, conv: Converter, inp: Input): (r: Option<Input>)
    requires Boundary(lim, inp) && inp.requested
    ensures r.Some? ==> !r.value.requested && |r.value.values| == |r.value.pieces| && r.value.ordinal <= |r.value.pieces|
  {
    match ValueOf(conv, inp.ordinal, inp.pieces[inp.ordinal], ConversionLimit(lim, array_, inp))
    case None => None
    case Some(v) =>
      Some(Input(inp.pieces[inp.ordinal := inp.pieces[inp.ordinal].(data := [])], inp.values[inp.ordinal := v],
                 inp.ordinal + 1, inp.bytes + ValueSize(v), 0, false))
  }

  lemma {:induction false} ReplaceSize(values: seq<Value>, i: nat, v: Value)
    requires i < |values|
    ensures TotalSize(values[i := v]) == TotalSize(values) - ValueSize(values[i]) + ValueSize(v)
    decreases |values|
  {
    var front := values[..|values| - 1];
    if i < |values| - 1 {
      assert values[i := v][..|values| - 1] == front[i := v];
      ReplaceSize(front, i, v);
    } else {
      assert values[i := v][..|values| - 1] == front;
    }
  }

  lemma FinishKeepsBoundary(lim: Limits, array_: bool, conv: Converter, inp: Input)
    requires Boundary(lim, inp) && inp.requested
    ensures Finish(lim, array_, conv, inp).Some? ==> Boundary(lim, Finish(lim, array_, conv, inp).value)
  {
    var v := ValueOf(conv, inp.ordinal, inp.pieces[inp.ordinal], ConversionLimit(lim, array_, inp));
    if v.Some? {
      ReplaceSize(inp.values, inp.ordinal, v.value);
    }
  }

  /** The first deferred parameter at or after i. */
  function NextDeferred(pieces: seq<Piece>, i: nat): (r: nat)
    requires i <= |pieces|
    ensures i <= r <= |pieces|
    ensures forall k :: i <= k < r ==> !pieces[k].deferred
    ensures r < |pieces| ==> pieces[r].deferred
    decreases |pieces| - i
  {
    if i == |pieces| || pieces[i].deferred then i else NextDeferred(pieces, i + 1)
  }

  /** Request the next deferred parameter, or hand the values over. */
  function Advance(inp: Input): (r: (Option<Input>, Reply))
    requires |inp.values| == |inp.pieces| && inp.ordinal <= |inp.pieces|
  {
    var o := NextDeferred(inp.pieces, inp.ordinal);
    if o < |inp.pieces| then (Some(inp.(ordinal := o, requested := true)), NeedData(inp.pieces[o].token))
    else (None, Execute(inp.values))
  }

  lemma AdvanceKeepsBoundary(lim: Limits, inp: Input)
    requires Boundary(lim, inp) && !inp.requested
    ensures Advance(inp).0.Some? ==> Boundary(lim, Advance(inp).0.value)
  {
    var o := NextDeferred(inp.pieces, inp.ordinal);
    if o < |inp.pieces| {
      assert Untouched(inp.pieces[o]);
      assert PieceSize(inp.pieces[o]) == 0;
    }
  }

  /** SQLPutData. */
  function PutData(lim: Limits, pending: Option<Input>, arg: Argument, interrupt: Interrupt): (Option<Input>, Reply)
    requires pending.Some? ==> Boundary(lim, pending.value)
  {
    if pending.None? || !pending.value.requested then (pending, OutOfSequence)
    else if interrupt.Before? then (None, Failed)
    else
      var r := Put(lim, pending.value, arg);
      if r.None? || interrupt.After? then (None, Failed) else (r, Success)
  }

  /** SQLParamData. */
  function ParamData(lim: Limits, array_: bool, conv: Converter, pending: Option<Input>, tokenGiven: bool, refused: bool,
                     interrupt: Interrupt): (Option<Input>, Reply)
    requires pending.Some? ==> Boundary(lim, pending.value)
  {
    if pending.None? then (None, OutOfSequence)
    else if interrupt.Before? || !tokenGiven then (None, Failed)
    else
      var inp := pending.value;
      if inp.requested && !inp.pieces[inp.ordinal].supplied then (pending, OutOfSequence)
      else
        var ready := if !inp.requested then pending else if refused then None else Finish(lim, array_, conv, inp);
        if ready.None? || interrupt.After? then (None, Failed) else Advance(ready.value)
  }

  // ---- what an accepted piece is ------------------------------------------------------

  /** The units that an argument of SQLPutData stands for: none for NULL, those before the first zero for
      a null-terminated one, and otherwise as many whole units as the length has bytes for. */
  predicate Denotes(arg: Argument, unit: nat, units: seq<int>)
    requires unit == 1 || unit == 2
  {
    && units <= arg.memory
    && (arg.length == SQL_NULL_DATA ==> units == [])
    && (arg.length == SQL_NTS ==>
          (forall k :: 0 <= k < |units| ==> units[k] != 0) && (|units| < |arg.memory| ==> arg.memory[|units|] == 0))
    && (0 <= arg.length <= unit * |arg.memory| ==> |units| == arg.length / unit)
  }

  lemma PayloadDenotes(arg: Argument, unit: nat)
    requires unit == 1 || unit == 2
    requires arg.length >= 0 || arg.length == SQL_NTS
    ensures Denotes(arg, unit, Payload(arg, unit))
  {
  }

  /** An accepted argument adds what it stands for to the piece, and nothing else. */
  lemma PieceAppends(p: Piece, arg: Argument, available: nat)
    requires PutPiece(p, arg, available).Some?
    ensures var q := PutPiece(p, arg, available).value;
      && q.supplied && (q.isNull <==> p.isNull || arg.length == SQL_NULL_DATA)
      && p.data <= q.data && Denotes(arg, Unit(p), q.data[|p.data|..])
      && PieceSize(q) == PieceSize(p) + Unit(p) * |q.data[|p.data|..]|
      && (arg.length >= 0 && arg.pointer && Readable(arg, Unit(p)) ==> PieceSize(q) == PieceSize(p) + arg.length)
  {
    var q := PutPiece(p, arg, available).value;
    if arg.length != SQL_NULL_DATA {
      var units := Payload(arg, Unit(p));
      PayloadDenotes(arg, Unit(p));
      hide Payload, Denotes;
      assert q.data[|p.data|..] == units;
      assert Unit(p) * |p.data + units| == Unit(p) * |p.data| + Unit(p) * |units|;
      if arg.length >= 0 && arg.pointer && Readable(arg, Unit(p)) { PayloadSize(arg, Unit(p)); }
    }
  }

  lemma PayloadSize(arg: Argument, unit: nat)
    requires (unit == 1 || unit == 2) && arg.length >= 0 && arg.length % unit == 0 && arg.length <= unit * |arg.memory|
    ensures unit * |Payload(arg, unit)| == arg.length
  {
  }

  /** A successful SQLPutData appends what its argument stands for to the requested piece and changes
      nothing else; raw bytes grow by exactly that, so a length of n bytes adds n. */
  lemma PutAppends(lim: Limits, inp: Input, arg: Argument, interrupt: Interrupt)
    requires Boundary(lim, inp) && inp.requested && Readable(arg, Unit(inp.pieces[inp.ordinal]))
    requires PutData(lim, Some(inp), arg, interrupt).1.Success?
    ensures var out := PutData(lim, Some(inp), arg, interrupt).0;
      && out.Some? && |out.value.pieces| == |inp.pieces|
      && var p, q := inp.pieces[inp.ordinal], out.value.pieces[inp.ordinal];
         && out.value == inp.(pieces := inp.pieces[inp.ordinal := q], raw := out.value.raw)
         && q.supplied && (q.isNull <==> p.isNull || arg.length == SQL_NULL_DATA)
         && p.data <= q.data && Denotes(arg, Unit(p), q.data[|p.data|..])
         && out.value.raw == inp.raw + Unit(p) * |q.data[|p.data|..]|
         && (arg.length >= 0 && arg.pointer ==> out.value.raw == inp.raw + arg.length)
  {
    hide PutPiece, Denotes, Unit;
    PieceAppends(inp.pieces[inp.ordinal], arg, Available(lim, inp));
  }

  /** How many bytes an argument brings, once it is well formed. */
  predicate Brings(arg: Argument, unit: nat, bytes: nat) {
    if arg.length == SQL_NTS then exists k :: 0 <= k < |arg.memory| && FirstZero(arg.memory, k) && bytes == unit * k
    else bytes == Max(arg.length, 0)
  }

  predicate FirstZero(memory: seq<int>, k: nat) {
    k < |memory| && memory[k] == 0 && forall j :: 0 <= j < k ==> memory[j] != 0
  }

  /** An undisturbed SQLPutData on a requested parameter succeeds exactly when it is the only NULL or adds
      to data that is not NULL, has a buffer unless it is empty, is well formed for the C type, and fits
      both limits. */
  lemma PutAcceptedIff(lim: Limits, inp: Input, arg: Argument, bytes: nat)
    requires Boundary(lim, inp) && inp.requested && Readable(arg, Unit(inp.pieces[inp.ordinal]))
    requires arg.pointer || arg.length == 0 ==> Brings(arg, Unit(inp.pieces[inp.ordinal]), bytes)
    ensures var p := inp.pieces[inp.ordinal];
      PutData(lim, Some(inp), arg, Undisturbed).1.Success? <==>
        if arg.length == SQL_NULL_DATA then !p.supplied
        else
          && !p.isNull && (arg.pointer || arg.length == 0)
          && (arg.length >= 0 || (arg.length == SQL_NTS && !p.kind.Binary?))
          && (p.kind.Wide? ==> bytes % 2 == 0)
          && PieceSize(p) + bytes <= lim.perParameter && inp.bytes + inp.raw + bytes <= lim.total
  {
    var p := inp.pieces[inp.ordinal];
    if !arg.pointer && arg.length != 0 {
    } else if arg.length == SQL_NTS {
      var k :| 0 <= k < |arg.memory| && FirstZero(arg.memory, k) && bytes == Unit(p) * k;
      assert Terminator(arg.memory, 0) == k;
      assert |Payload(arg, Unit(p))| == k;
    } else if arg.length >= 0 && arg.length % Unit(p) == 0 {
      assert |Payload(arg, Unit(p))| == arg.length / Unit(p);
      assert Unit(p) * (arg.length / Unit(p)) == arg.length;
    }
  }

  /** An undisturbed SQLParamData asks for the next deferred parameter or hands the values over, unless
      the requested one was not supplied, is refused by the converter or does not fit. */
  lemma ParamProceedsIff(lim: Limits, array_: bool, conv: Converter, inp: Input)
    requires Boundary(lim, inp)
    ensures var r := ParamData(lim, array_, conv, Some(inp), true, false, Undisturbed).1;
      && (r.NeedData? || r.Execute? <==>
            !inp.requested || (
              var p := inp.pieces[inp.ordinal];
              p.supplied && (p.isNull || (conv(inp.ordinal, p.data).Some? &&
                |conv(inp.ordinal, p.data).value| <= Min(lim.perParameter, lim.total - inp.bytes - if array_ then PieceSize(p) else 0)))))
      && (r.OutOfSequence? <==> inp.requested && !inp.pieces[inp.ordinal].supplied)
  {
  }

  lemma CallsKeepBoundary(lim: Limits, array_: bool, conv: Converter, pending: Option<Input>, call: Call)
    requires pending.Some? ==> Boundary(lim, pending.value)
    ensures call.PutCall? ==> var r := PutData(lim, pending, call.arg, call.putInterrupt).0;
      r.Some? ==> Boundary(lim, r.value)
    ensures call.ParamCall? ==>
      var r := ParamData(lim, array_, conv, pending, call.tokenGiven, call.refused, call.interrupt).0;
      r.Some? ==> Boundary(lim, r.value)
  {
    hide Put, Finish, Advance;
    if pending.Some? {
      var inp := pending.value;
      if call.PutCall? {
        if inp.requested { PutKeepsBoundary(lim, inp, call.arg); }
      } else {
        if inp.requested { FinishKeepsBoundary(lim, array_, conv, inp); }
        var ready := if inp.requested then Finish(lim, array_, conv, inp) else pending;
        if ready.Some? {
          AdvanceKeepsBoundary(lim, ready.value);
        }
      }
    }
  }
}
