/** Whole data-at-execution runs: the order of requests and what is finally dispatched. */
module DeferredRuns {
  import opened Options
  import opened MachineWords
  import opened DataAtExecution

  datatype Event =
    | Requested(index: nat, token: int)
    | Supplied(index: nat, units: seq<int>)
    | SuppliedNull(index: nat)
    | Dispatched(values: seq<Value>)

  datatype Session = Session(pending: Option<Input>, log: seq<Event>)

  // ---- reading a log --------------------------------------------------------------

  function Requests(log: seq<Event>): seq<(nat, int)> {
    if log == [] then []
    else
      var e := log[|log| - 1];
      Requests(log[..|log| - 1]) + if e.Requested? then [(e.index, e.token)] else []
  }

  /** The concatenation of the pieces sent for parameter i. */
  function Collected(log: seq<Event>, i: nat): seq<int> {
    if log == [] then []
    else
      var e := log[|log| - 1];
      Collected(log[..|log| - 1], i) + if e.Supplied? && e.index == i then e.units else []
  }

  predicate Nulled(log: seq<Event>, i: nat) { SuppliedNull(i) in log }

  predicate Touched(log: seq<Event>, i: nat) {
    log != [] && (Touched(log[..|log| - 1], i) ||
                  var e := log[|log| - 1]; (e.Supplied? || e.SuppliedNull?) && e.index == i)
  }

  /** The parameter most recently asked for. */
  function Current(log: seq<Event>): Option<nat> {
    if log == [] then None
    else if log[|log| - 1].Requested? then Some(log[|log| - 1].index)
    else Current(log[..|log| - 1])
  }

  /** Data is only ever accepted for the parameter last asked for, and nothing follows dispatch. */
  predicate Ordered(log: seq<Event>) {
    log != [] ==>
      var front, e := log[..|log| - 1], log[|log| - 1];
      && Ordered(front)
      && (front != [] ==> !front[|front| - 1].Dispatched?)
      && (e.Supplied? || e.SuppliedNull? ==> Current(front) == Some(e.index))
  }

  lemma LogGrows(log: seq<Event>, e: Event, i: nat)
    ensures Collected(log + [e], i) == if e.Supplied? && e.index == i then Collected(log, i) + e.units else Collected(log, i)
    ensures Touched(log + [e], i) <==> Touched(log, i) || ((e.Supplied? || e.SuppliedNull?) && e.index == i)
    ensures Nulled(log + [e], i) <==> Nulled(log, i) || e == SuppliedNull(i)
  {
    assert (log + [e])[..|log|] == log;
  }

  lemma OrderGrows(log: seq<Event>, e: Event)
    requires Ordered(log) && (log != [] ==> !log[|log| - 1].Dispatched?)
    requires e.Supplied? || e.SuppliedNull? ==> Current(log) == Some(e.index)
    ensures Ordered(log + [e])
    ensures Requests(log + [e]) == if e.Requested? then Requests(log) + [(e.index, e.token)] else Requests(log)
    ensures Current(log + [e]) == if e.Requested? then Some(e.index) else Current(log)
  {
    assert (log + [e])[..|log|] == log;
  }

  /** The deferred parameters below n, ascending, with their tokens. */
  function DeferredBelow(pieces: seq<Piece>, n: nat): seq<(nat, int)>
    requires n <= |pieces|
  {
    if n == 0 then []
    else DeferredBelow(pieces, n - 1) + if pieces[n - 1].deferred then [(n - 1, pieces[n - 1].token)] else []
  }

  lemma {:induction false} DeferredGrows(pieces: seq<Piece>, k: nat, n: nat)
    requires k <= n <= |pieces|
    ensures DeferredBelow(pieces, k) <= DeferredBelow(pieces, n)
    ensures (forall i :: k <= i < n ==> !pieces[i].deferred) ==> DeferredBelow(pieces, k) == DeferredBelow(pieces, n)
  {
    if k < n { DeferredGrows(pieces, k, n - 1); }
  }

  lemma {:induction false} DeferredAscends(pieces: seq<Piece>, n: nat)
    requires n <= |pieces|
    ensures var d := DeferredBelow(pieces, n);
      && (forall j :: 0 <= j < |d| ==> d[j].0 < n && pieces[d[j].0].deferred && d[j].1 == pieces[d[j].0].token)
      && (forall j, k :: 0 <= j < k < |d| ==> d[j].0 < d[k].0)
      && (forall i :: 0 <= i < n && pieces[i].deferred ==> (i, pieces[i].token) in d)
  {
    if n > 0 {
      DeferredAscends(pieces, n - 1);
      var d, e := DeferredBelow(pieces, n), DeferredBelow(pieces, n - 1);
      assert e <= d;
      forall i | 0 <= i < n && pieces[i].deferred ensures (i, pieces[i].token) in d {
        if i == n - 1 { assert d[|d| - 1] == (i, pieces[i].token); }
      }
    }
  }

  // ---- runs -----------------------------------------------------------------------

  function PutEvent(inp: Input, arg: Argument): Event
    requires inp.ordinal < |inp.pieces|
  {
    if arg.length == SQL_NULL_DATA then SuppliedNull(inp.ordinal)
    else Supplied(inp.ordinal, Payload(arg, Unit(inp.pieces[inp.ordinal])))
  }

  function Next(lim: Limits, array_: bool, conv: Converter, s: Session, call: Call): (t: Session)
    requires s.pending.Some? ==> Boundary(lim, s.pending.value)
  {
    match call
    case PutCall(arg, interrupt) =>
      var (pending, reply) := PutData(lim, s.pending, arg, interrupt);
      Session(pending, if reply.Success? then s.log + [PutEvent(s.pending.value, arg)] else s.log)
    case ParamCall(tokenGiven, refused, interrupt) =>
      var (pending, reply) := ParamData(lim, array_, conv, s.pending, tokenGiven, refused, interrupt);
      Session(pending,
              match reply
              case NeedData(token) => s.log + [Requested(pending.value.ordinal, token)]
              case Execute(values) => s.log + [Dispatched(values)]
              case _ => s.log)
  }

  /** A collection as start_pending_input or start_pending_array leaves it. */
  ghost predicate Started(lim: Limits, first: Input) {
    && Boundary(lim, first) && !first.requested
    && (forall i :: 0 <= i < first.ordinal ==> !first.pieces[i].deferred)
  }

  function Shape(p: Piece): Piece { p.(supplied := false, isNull := false, data := []) }

  /** The value parameter i must be bound to after the run recorded in the log. */
  ghost predicate Faithful(conv: Converter, log: seq<Event>, i: nat, v: Value) {
    && Touched(log, i)
    && (if Nulled(log, i) then v == Null
        else conv(i, Collected(log, i)).Some? && v == Bound(conv(i, Collected(log, i)).value))
  }

  ghost predicate Row(first: Input, conv: Converter, inp: Input, log: seq<Event>, i: nat)
    requires i < |inp.pieces| && |first.pieces| == |inp.pieces| == |inp.values| == |first.values|
  {
    && Shape(inp.pieces[i]) == Shape(first.pieces[i])
    && if !first.pieces[i].deferred then inp.values[i] == first.values[i]
       else if i >= Ahead(inp) then !Touched(log, i) && !Nulled(log, i) && Collected(log, i) == []
       else if i == inp.ordinal then
         var p := inp.pieces[i];
         p.data == Collected(log, i) && p.supplied == Touched(log, i) && p.isNull == Nulled(log, i)
       else Faithful(conv, log, i, inp.values[i])
  }

  ghost predicate Live(lim: Limits, first: Input, conv: Converter, inp: Input, log: seq<Event>) {
    && Boundary(lim, inp) && |first.values| == |first.pieces| == |inp.pieces|
    && (forall i :: 0 <= i < |inp.pieces| ==> Row(first, conv, inp, log, i))
    && Requests(log) == DeferredBelow(first.pieces, Ahead(inp))
    && Ordered(log) && (log != [] ==> !log[|log| - 1].Dispatched?)
    && (inp.requested ==> Current(log) == Some(inp.ordinal))
  }

  /** What a dispatch hands over: every deferred parameter was asked for and supplied, each bound to
      the conversion of what was sent for it, the others as collected at the start, within the total. */
  ghost predicate Complete(lim: Limits, first: Input, conv: Converter, log: seq<Event>, values: seq<Value>) {
    && |values| == |first.pieces| == |first.values|
    && Requests(log) == DeferredBelow(first.pieces, |first.pieces|)
    && TotalSize(values) <= lim.total
    && (forall i :: 0 <= i < |values| ==>
          if first.pieces[i].deferred then Faithful(conv, log, i, values[i]) else values[i] == first.values[i])
  }

  ghost predicate Inv(lim: Limits, first: Input, conv: Converter, s: Session) {
    if s.pending.Some? then Live(lim, first, conv, s.pending.value, s.log)
    else
      && Requests(s.log) <= DeferredBelow(first.pieces, |first.pieces|)
      && Ordered(s.log)
      && (s.log != [] && s.log[|s.log| - 1].Dispatched? ==>
            Complete(lim, first, conv, s.log[..|s.log| - 1], s.log[|s.log| - 1].values))
  }

  lemma DroppedKeepsInv(lim: Limits, first: Input, conv: Converter, inp: Input, log: seq<Event>)
    requires Live(lim, first, conv, inp, log)
    ensures Inv(lim, first, conv, Session(None, log))
  {
    DeferredGrows(first.pieces, Ahead(inp), |first.pieces|);
  }

  lemma PutKeepsLive(lim: Limits, first: Input, conv: Converter, inp: Input, log: seq<Event>, arg: Argument)
    requires Live(lim, first, conv, inp, log) && inp.requested && Put(lim, inp, arg).Some?
    ensures Live(lim, first, conv, Put(lim, inp, arg).value, log + [PutEvent(inp, arg)])
  {
    hide Payload, Collected, Touched, Nulled, Requests, Current, Ordered;
    var e := PutEvent(inp, arg);
    var log' := log + [e];
    var out := Put(lim, inp, arg).value;
    assert Boundary(lim, out) by { PutKeepsBoundary(lim, inp, arg); }
    OrderGrows(log, e);
    forall i | 0 <= i < |out.pieces| ensures Row(first, conv, out, log', i) {
      LogGrows(log, e, i);
      assert Row(first, conv, inp, log, i);
    }
  }

  lemma FinishKeepsLive(lim: Limits, array_: bool, first: Input, conv: Converter, inp: Input, log: seq<Event>)
    requires Live(lim, first, conv, inp, log) && inp.requested && inp.pieces[inp.ordinal].supplied
    requires Finish(lim, array_, conv, inp).Some?
    ensures Live(lim, first, conv, Finish(lim, array_, conv, inp).value, log)
  {
    var out := Finish(lim, array_, conv, inp).value;
    FinishKeepsBoundary(lim, array_, conv, inp);
    forall i | 0 <= i < |out.pieces| ensures Row(first, conv, out, log, i) {
      assert Row(first, conv, inp, log, i);
    }
  }

  lemma SameShapes(lim: Limits, first: Input, conv: Converter, inp: Input, log: seq<Event>)
    requires Live(lim, first, conv, inp, log)
    ensures forall i :: 0 <= i < |inp.pieces| ==>
      inp.pieces[i].deferred == first.pieces[i].deferred && inp.pieces[i].token == first.pieces[i].token
  {
    forall i | 0 <= i < |inp.pieces|
      ensures inp.pieces[i].deferred == first.pieces[i].deferred && inp.pieces[i].token == first.pieces[i].token
    {
      assert Row(first, conv, inp, log, i);
    }
  }

  lemma RequestKeepsLive(lim: Limits, first: Input, conv: Converter, inp: Input, log: seq<Event>)
    requires Live(lim, first, conv, inp, log) && !inp.requested && Advance(inp).0.Some?
    ensures var out := Advance(inp).0.value;
      && Advance(inp).1 == NeedData(first.pieces[out.ordinal].token)
      && Live(lim, first, conv, out, log + [Requested(out.ordinal, first.pieces[out.ordinal].token)])
  {
    hide Collected, Touched, Nulled, Requests, Current, Ordered;
    var out := Advance(inp).0.value;
    SameShapes(lim, first, conv, inp, log);
    DeferredGrows(first.pieces, inp.ordinal, out.ordinal);
    AdvanceKeepsBoundary(lim, inp);
    var log' := log + [Requested(out.ordinal, first.pieces[out.ordinal].token)];
    OrderGrows(log, Requested(out.ordinal, first.pieces[out.ordinal].token));
    forall i | 0 <= i < |inp.pieces| ensures Row(first, conv, out, log', i) {
      LogGrows(log, Requested(out.ordinal, first.pieces[out.ordinal].token), i);
      assert Row(first, conv, inp, log, i);
    }
  }

  lemma DispatchIsComplete(lim: Limits, first: Input, conv: Converter, inp: Input, log: seq<Event>)
    requires Live(lim, first, conv, inp, log) && !inp.requested && Advance(inp).0.None?
    ensures Complete(lim, first, conv, log, inp.values)
  {
    hide Requests;
    SameShapes(lim, first, conv, inp, log);
    DeferredGrows(first.pieces, inp.ordinal, |first.pieces|);
    forall i | 0 <= i < |inp.values|
      ensures if first.pieces[i].deferred then Faithful(conv, log, i, inp.values[i]) else inp.values[i] == first.values[i]
    {
      assert Row(first, conv, inp, log, i);
    }
  }

  lemma DispatchKeepsInv(lim: Limits, first: Input, conv: Converter, log: seq<Event>, values: seq<Value>)
    requires Complete(lim, first, conv, log, values) && Ordered(log) && (log != [] ==> !log[|log| - 1].Dispatched?)
    ensures Inv(lim, first, conv, Session(None, log + [Dispatched(values)]))
  {
    var log' := log + [Dispatched(values)];
    assert log'[..|log'| - 1] == log;
  }

  lemma AdvanceKeepsInv(lim: Limits, first: Input, conv: Converter, inp: Input, log: seq<Event>)
    requires Live(lim, first, conv, inp, log) && !inp.requested
    ensures var (pending, reply) := Advance(inp);
      Inv(lim, first, conv,
          Session(pending, log + [if reply.NeedData? then Requested(pending.value.ordinal, reply.token)
                                  else Dispatched(inp.values)]))
  {
    hide Complete, DeferredBelow, Requests;
    if Advance(inp).0.Some? {
      RequestKeepsLive(lim, first, conv, inp, log);
    } else {
      DispatchIsComplete(lim, first, conv, inp, log);
      DispatchKeepsInv(lim, first, conv, log, inp.values);
    }
  }

  lemma NextKeepsInv(lim: Limits, array_: bool, first: Input, conv: Converter, s: Session, call: Call)
    requires Inv(lim, first, conv, s) && (s.pending.Some? ==> Boundary(lim, s.pending.value))
    ensures Inv(lim, first, conv, Next(lim, array_, conv, s, call))
  {
    hide Live, Put, Finish, Ordered, Requests, Complete, PutEvent, DeferredBelow;
    if s.pending.Some? {
      var inp := s.pending.value;
      DroppedKeepsInv(lim, first, conv, inp, s.log);
      if call.PutCall? {
        if inp.requested && Put(lim, inp, call.arg).Some? { PutKeepsLive(lim, first, conv, inp, s.log, call.arg); }
      } else if !inp.requested {
        AdvanceKeepsInv(lim, first, conv, inp, s.log);
      } else if inp.pieces[inp.ordinal].supplied && Finish(lim, array_, conv, inp).Some? {
        FinishKeepsLive(lim, array_, first, conv, inp, s.log);
        AdvanceKeepsInv(lim, first, conv, Finish(lim, array_, conv, inp).value, s.log);
      }
    }
  }

  /** The session after any sequence of calls on a started collection. */
  function Exec(lim: Limits, array_: bool, conv: Converter, first: Input, calls: seq<Call>): (s: Session)
    requires Boundary(lim, first)
    ensures s.pending.Some? ==> Boundary(lim, s.pending.value)
    decreases |calls|
  {
    if calls == [] then Session(Some(first), [])
    else
      var s := Exec(lim, array_, conv, first, calls[..|calls| - 1]);
      CallsKeepBoundary(lim, array_, conv, s.pending, calls[|calls| - 1]);
      Next(lim, array_, conv, s, calls[|calls| - 1])
  }

  lemma {:induction false} RunKeepsInv(lim: Limits, array_: bool, conv: Converter, first: Input, calls: seq<Call>)
    requires Started(lim, first)
    ensures Inv(lim, first, conv, Exec(lim, array_, conv, first, calls))
    decreases |calls|
  {
    if calls == [] {
      DeferredGrows(first.pieces, 0, first.ordinal);
    } else {
      hide Inv, Next;
      RunKeepsInv(lim, array_, conv, first, calls[..|calls| - 1]);
      NextKeepsInv(lim, array_, first, conv, Exec(lim, array_, conv, first, calls[..|calls| - 1]), calls[|calls| - 1]);
    }
  }

  lemma {:induction false} DispatchIsLast(log: seq<Event>, k: nat)
    requires Ordered(log) && k < |log| && log[k].Dispatched?
    ensures k == |log| - 1
    decreases |log|
  {
    if k < |log| - 1 {
      DispatchIsLast(log[..|log| - 1], k);
    }
  }

  /** Over every run: requests are a prefix of the deferred parameters in ascending order, each once
      with its own token; data is taken only for the parameter last asked for; there is at most
      one dispatch, it comes last, after every deferred parameter was supplied, and binds each to the
      conversion of the concatenation of its pieces. */
  lemma EveryRun(lim: Limits, array_: bool, conv: Converter, first: Input, calls: seq<Call>)
    requires Started(lim, first)
    ensures var log := Exec(lim, array_, conv, first, calls).log;
      && Requests(log) <= DeferredBelow(first.pieces, |first.pieces|)
      && Ordered(log)
      && (forall k :: 0 <= k < |log| && log[k].Dispatched? ==>
            k == |log| - 1 && Complete(lim, first, conv, log[..k], log[k].values))
  {
    hide Complete, Next, Boundary;
    var s := Exec(lim, array_, conv, first, calls);
    RunKeepsInv(lim, array_, conv, first, calls);
    if s.pending.Some? { DroppedKeepsInv(lim, first, conv, s.pending.value, s.log); }
    forall k | 0 <= k < |s.log| && s.log[k].Dispatched?
      ensures k == |s.log| - 1 && Complete(lim, first, conv, s.log[..k], s.log[k].values)
    {
      DispatchIsLast(s.log, k);
    }
  }

  // ---- from the arguments of the calls -------------------------------------------------

  /** Bytes of one unit of a parameter's C type. */
  function Width(kind: Kind): nat { if kind.Wide? then 2 else 1 }

  /** The arguments of the SQLPutData calls that succeeded while parameter i was the requested one. */
  function Puts(lim: Limits, array_: bool, conv: Converter, first: Input, calls: seq<Call>, i: nat): seq<Argument>
    requires Boundary(lim, first)
    decreases |calls|
  {
    if calls == [] then []
    else
      var front, call := calls[..|calls| - 1], calls[|calls| - 1];
      var s := Exec(lim, array_, conv, first, front);
      Puts(lim, array_, conv, first, front, i) +
        if call.PutCall? && s.pending.Some? && s.pending.value.ordinal == i &&
           PutData(lim, s.pending, call.arg, call.putInterrupt).1.Success?
        then [call.arg] else []
  }

  /** The data is what the arguments stand for, one after the other. */
  ghost predicate Concatenates(args: seq<Argument>, unit: nat, data: seq<int>)
    requires unit == 1 || unit == 2
    decreases |args|
  {
    if args == [] then data == []
    else exists n :: 0 <= n <= |data| && Denotes(args[|args| - 1], unit, data[n..]) &&
                     Concatenates(args[..|args| - 1], unit, data[..n])
  }

  lemma ConcatenatesOneMore(args: seq<Argument>, unit: nat, data: seq<int>, arg: Argument, units: seq<int>)
    requires (unit == 1 || unit == 2) && Concatenates(args, unit, data) && Denotes(arg, unit, units)
    ensures Concatenates(args + [arg], unit, data + units)
  {
    var more, all := args + [arg], data + units;
    assert more[..|more| - 1] == args && more[|more| - 1] == arg;
    assert all[|data|..] == units && all[..|data|] == data;
  }

  ghost predicate HasNull(args: seq<Argument>) { exists k :: 0 <= k < |args| && args[k].length == SQL_NULL_DATA }

  /** The log agrees with the calls. */
  ghost predicate FromCalls(first: Input, args: seq<Argument>, log: seq<Event>, i: nat)
    requires i < |first.pieces|
  {
    && Concatenates(args, Width(first.pieces[i].kind), Collected(log, i))
    && (Touched(log, i) <==> args != []) && (Nulled(log, i) <==> HasNull(args))
  }

  lemma LiveKinds(lim: Limits, first: Input, conv: Converter, inp: Input, log: seq<Event>)
    requires Live(lim, first, conv, inp, log)
    ensures forall i :: 0 <= i < |inp.pieces| ==> inp.pieces[i].kind == first.pieces[i].kind
  {
    forall i | 0 <= i < |inp.pieces| ensures inp.pieces[i].kind == first.pieces[i].kind {
      assert Row(first, conv, inp, log, i);
    }
  }

  lemma PutFromCall(first: Input, args: seq<Argument>, log: seq<Event>, i: nat, inp: Input, arg: Argument)
    requires i < |first.pieces| == |inp.pieces| && inp.ordinal < |inp.pieces| && inp.pieces[i].kind == first.pieces[i].kind
    requires FromCalls(first, args, log, i)
    requires arg.length == SQL_NULL_DATA || arg.length == SQL_NTS || arg.length >= 0
    ensures FromCalls(first, if inp.ordinal == i then args + [arg] else args, log + [PutEvent(inp, arg)], i)
  {
    hide Collected, Touched, Nulled, Payload, Denotes, Concatenates;
    var e := PutEvent(inp, arg);
    LogGrows(log, e, i);
    if inp.ordinal == i {
      var width := Width(first.pieces[i].kind);
      if e.Supplied? {
        PayloadDenotes(arg, width);
        ConcatenatesOneMore(args, width, Collected(log, i), arg, e.units);
      } else {
        assert Denotes(arg, width, []) by { NullDenotesNothing(arg, width); }
        ConcatenatesOneMore(args, width, Collected(log, i), arg, []);
        assert Collected(log, i) + [] == Collected(log, i);
      }
      assert (args + [arg])[|args|] == arg && forall k :: 0 <= k < |args| ==> (args + [arg])[k] == args[k];
    }
  }

  lemma NullDenotesNothing(arg: Argument, unit: nat)
    requires (unit == 1 || unit == 2) && arg.length == SQL_NULL_DATA
    ensures Denotes(arg, unit, [])
  {
  }

  lemma OtherEventKeeps(first: Input, args: seq<Argument>, log: seq<Event>, i: nat, e: Event)
    requires i < |first.pieces| && FromCalls(first, args, log, i) && (e.Requested? || e.Dispatched?)
    ensures FromCalls(first, args, log + [e], i)
  {
    hide Collected, Touched, Nulled, Concatenates;
    LogGrows(log, e, i);
  }

  /** Over every run the collected data of a parameter is exactly what the arguments of its successful
      SQLPutData calls stand for, one after the other. */
  lemma {:induction false} CollectedFromCalls(lim: Limits, array_: bool, conv: Converter, first: Input, calls: seq<Call>, i: nat)
    requires Started(lim, first) && i < |first.pieces|
    ensures FromCalls(first, Puts(lim, array_, conv, first, calls, i), Exec(lim, array_, conv, first, calls).log, i)
    decreases |calls|
  {
    if calls != [] {
      hide FromCalls, PutEvent, Live, Boundary;
      var front, call := calls[..|calls| - 1], calls[|calls| - 1];
      CollectedFromCalls(lim, array_, conv, first, front, i);
      RunKeepsInv(lim, array_, conv, first, front);
      var s, args := Exec(lim, array_, conv, first, front), Puts(lim, array_, conv, first, front, i);
      assert args + [] == args;
      StepFromCalls(lim, array_, conv, first, s, call, args, i);
    }
  }

  lemma StepFromCalls(lim: Limits, array_: bool, conv: Converter, first: Input, s: Session, call: Call, args: seq<Argument>, i: nat)
    requires i < |first.pieces| && Inv(lim, first, conv, s) && (s.pending.Some? ==> Boundary(lim, s.pending.value))
    requires FromCalls(first, args, s.log, i)
    ensures FromCalls(first,
      if call.PutCall? && s.pending.Some? && s.pending.value.ordinal == i &&
         PutData(lim, s.pending, call.arg, call.putInterrupt).1.Success?
      then args + [call.arg] else args, Next(lim, array_, conv, s, call).log, i)
  {
    hide FromCalls, PutEvent, Live, Payload, Finish;
    if s.pending.Some? {
      var inp := s.pending.value;
      LiveKinds(lim, first, conv, inp, s.log);
      LiveSize(lim, first, conv, inp, s.log);
      if call.PutCall? {
        if PutData(lim, s.pending, call.arg, call.putInterrupt).1.Success? { PutFromCall(first, args, s.log, i, inp, call.arg); }
      } else {
        var (pending, reply) := ParamData(lim, array_, conv, s.pending, call.tokenGiven, call.refused, call.interrupt);
        if reply.NeedData? { OtherEventKeeps(first, args, s.log, i, Requested(pending.value.ordinal, reply.token)); }
        if reply.Execute? { OtherEventKeeps(first, args, s.log, i, Dispatched(reply.values)); }
      }
    }
  }

  lemma LiveSize(lim: Limits, first: Input, conv: Converter, inp: Input, log: seq<Event>)
    requires Live(lim, first, conv, inp, log)
    ensures |inp.pieces| == |first.pieces|
  {
  }

  /** What is dispatched, from the calls alone: every deferred parameter was supplied; it is NULL if a
      call said so, and otherwise the conversion of what its calls stand for. */
  lemma DispatchedFromCalls(lim: Limits, array_: bool, conv: Converter, first: Input, calls: seq<Call>, i: nat)
    requires Started(lim, first) && i < |first.pieces| && first.pieces[i].deferred
    requires var log := Exec(lim, array_, conv, first, calls).log; log != [] && log[|log| - 1].Dispatched?
    ensures var log, args := Exec(lim, array_, conv, first, calls).log, Puts(lim, array_, conv, first, calls, i);
      var values := log[|log| - 1].values;
      && i < |values| && args != []
      && if HasNull(args) then values[i] == Null
         else exists data :: Concatenates(args, Width(first.pieces[i].kind), data) && conv(i, data).Some? &&
                             values[i] == Bound(conv(i, data).value)
  {
    hide Concatenates, Puts, Exec, Boundary, Collected, Touched, Requests, Ordered;
    var log := Exec(lim, array_, conv, first, calls).log;
    EveryRun(lim, array_, conv, first, calls);
    CollectedFromCalls(lim, array_, conv, first, calls, i);
    var front := log[..|log| - 1];
    assert Complete(lim, first, conv, front, log[|log| - 1].values);
    assert log == front + [log[|log| - 1]];
    LogGrows(front, log[|log| - 1], i);
    assert Concatenates(Puts(lim, array_, conv, first, calls, i), Width(first.pieces[i].kind), Collected(front, i));
  }
}
