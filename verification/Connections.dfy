/** Connections as objects that commit, roll back and dispatch, and the environment-wide end of transactions. */
module Connections {
  import opened Transactions

  class Connection {
    var connected: bool
    var autocommit: bool
    var active: bool
    var pending: bool
    ghost var session: SessionState
    ghost var sent: seq<Sent>

    ghost function View(): Conn
      reads this
    {
      Conn(connected, autocommit, active, pending, session, sent)
    }

    constructor ()
      ensures View() == Conn(false, true, false, false, Disconnected, []) && Inv(View()) && Agrees(View())
    {
      connected, autocommit, active, pending := false, true, false, false;
      session, sent := Disconnected, [];
    }

    method CloseConnection()
      modifies this
      ensures View() == Closed(old(View()))
    {
      connected, active, session := false, false, Disconnected;
    }

    /** True when a statement may be dispatched, in manual-commit mode only into an open transaction. */
    method BeginIfNeeded(r: Reply, ghost after: SessionState) returns (ok: bool)
      requires Inv(View()) && Honest(View(), Exchange(r, after))
      modifies this
      ensures (View(), ok) == Begin(old(View()), Exchange(r, after)) && Inv(View())
      ensures old(Agrees(View())) ==> Agrees(View())
      ensures old(Agrees(View())) && ok && connected && !autocommit ==> active && Open(session)
    {
      if autocommit || active { return true; }
      if connected { sent := sent + [BeginSent]; }
      if !r.ok {
        if Lost(r) { CloseConnection(); } else { active, session := Open(r.state), after; }
        return false;
      }
      if r.state != Transaction || r.disposition != ResetRequired {
        CloseConnection();
        return false;
      }
      active, session := true, after;
      return true;
    }

    /** After a definite report the flag is the session's own state; nothing else changes it, and under
        autocommit nothing does. */
    method ReconcileState(state: SessionState)
      requires Inv(View()) && (connected || autocommit) && (Definite(state) ==> state == session)
      modifies this`active
      ensures Inv(View()) && View() == Reconcile(old(View()), state)
      ensures Definite(state) ==> Agrees(View())
      ensures !Definite(state) || autocommit ==> active == old(active)
    {
      if autocommit { return; }
      if state.Transaction? || state.FailedTransaction? {
        active := true;
      } else if state.IdleSession? {
        active := false;
      }
    }

    method DispatchStatement(reply: Reply, ghost after: SessionState)
      requires Inv(View()) && (connected || autocommit) && Honest(View(), Exchange(reply, after))
      modifies this
      ensures View() == Dispatch(old(View()), Exchange(reply, after))
    {
      if connected { sent := sent + [Statement(!autocommit, Open(session))]; }
      session := after;
      ReconcileState(reply.state);
      if !reply.ok && reply.timeout { CloseConnection(); }
    }

    /** One statement: exactly what must go out does, in manual-commit mode only into an open transaction, and the
        flag is right afterwards exactly when the reply did not hide that the transaction ended. */
    method ExecuteScalar(begin: Reply, ghost begun: SessionState, reply: Reply, ghost after: SessionState)
      requires Inv(View()) && Agrees(View()) && Allowed(View(), Run(Exchange(begin, begun), Exchange(reply, after)))
      modifies this
      ensures Inv(View()) && View() == Execute(old(View()), Exchange(begin, begun), Exchange(reply, after))
      ensures sent == old(sent) +
        if !old(connected) then []
        else if old(autocommit || active) then [Statement(!old(autocommit), old(Open(session)))]
        else if Confirms(begin) then [BeginSent, Statement(true, true)]
        else [BeginSent]
      ensures old(AllOpen(sent)) ==> AllOpen(sent)
      ensures Agrees(View()) <==> !Drifts(old(View()), Run(Exchange(begin, begun), Exchange(reply, after)))
    {
      hide Drifts, Honest, Agrees, Confirms, Sending, AllOpen;
      ghost var op := Run(Exchange(begin, begun), Exchange(reply, after));
      AgreementLostIff(View(), op);
      ApplyKeepsInv(View(), op);
      ExecuteSends(View(), op.begin, op.x);
      DispatchIsOpen(View(), Exchange(begin, begun));
      var ok := BeginIfNeeded(begin, begun);
      if ok {
        DispatchStatement(reply, after);
      } else if !begin.ok && begin.timeout {
        CloseConnection();
      }
    }

    method EndTransaction(how: Completion, r: Reply, ghost after: SessionState) returns (code: Code)
      requires Inv(View()) && Completes(View(), Exchange(r, after))
      modifies this
      ensures Inv(View()) && (View(), code) == End(old(View()), how, Exchange(r, after))
      ensures old(Agrees(View())) ==> Agrees(View())
      ensures sent == if old(active && !pending) && !how.OtherCompletion? then old(sent) + [Ending(how)] else old(sent)
      ensures code.Success? ==> connected && !active
      ensures code.Error? <==> old(pending) || how.OtherCompletion? || !old(connected) || (old(active) && !r.ok)
    {
      EndMeans(View(), how, Exchange(r, after));
      if pending { return Error; }
      if how.OtherCompletion? { return Error; }
      if !connected { return Error; }
      if autocommit { return Success; }
      if !active { return Success; }
      sent, session := sent + [Ending(how)], after;
      if !r.ok {
        if r.timeout || Lost(r) { CloseConnection(); } else { active := Open(r.state); }
        return Error;
      }
      active := false;
      return Success;
    }

    /** An open transaction is committed before autocommit is turned on; the change is refused otherwise. */
    method SetAutocommitMode(on: bool, supported: bool, r: Reply, ghost after: SessionState) returns (code: Code)
      requires Inv(View()) && Completes(View(), Exchange(r, after))
      modifies this
      ensures Inv(View()) && (View(), code) == SetAutocommit(old(View()), on, supported, Exchange(r, after))
      ensures code.Success? <==> autocommit == on
      ensures sent == if old(active && !pending) && on then old(sent) + [Ending(Commit)] else old(sent)
      ensures old(active) && on ==> (code.Success? <==> !old(pending) && r.ok)
      ensures old(active) && on && code.Success? ==> session.IdleSession?
      ensures !code.Success? && old(Agrees(View())) ==> Agrees(View())
    {
      if autocommit == on { return Success; }
      if !on && !supported { return Error; }
      if on && connected && active {
        code := EndTransaction(Commit, r, after);
        if !code.Success? { return; }
      }
      autocommit := on;
      return Success;
    }
  }

  // ---- the environment ------------------------------------------------------------

  predicate Fails(c: Code) { c.Error? || c.InvalidHandle? }

  /** How one child's code changes the aggregate. */
  function Combine(aggregate: Code, code: Code): Code {
    if Fails(code) then Error else if code.Info? && aggregate.Success? then Info else aggregate
  }

  function Aggregate(codes: seq<Code>): Code {
    if codes == [] then Success else Combine(Aggregate(codes[..|codes| - 1]), codes[|codes| - 1])
  }

  /** The aggregate is an error exactly when some child failed, and otherwise plain success exactly
      when none had information. */
  lemma {:induction false} AggregateMeans(codes: seq<Code>)
    ensures Aggregate(codes).Error? <==> exists i :: 0 <= i < |codes| && Fails(codes[i])
    ensures Aggregate(codes).Success? <==> forall i :: 0 <= i < |codes| ==> codes[i].Success?
  {
    if codes != [] {
      var n := |codes| - 1;
      AggregateMeans(codes[..n]);
      assert forall i :: 0 <= i < n ==> codes[..n][i] == codes[i];
    }
  }

  /** What the environment-wide call does to a child once it was not refused. */
  function Ended(c: Conn, how: Completion, x: Exchange): Conn {
    if c.connected then End(c, how, x).0 else c
  }

  /** The codes of the connected children, in the order in which they are attempted. */
  function Attempts(children: seq<Conn>, how: Completion, exchanges: seq<Exchange>): seq<Code>
    requires |exchanges| == |children|
  {
    if children == [] then []
    else
      var n := |children| - 1;
      Attempts(children[..n], how, exchanges[..n]) +
        if children[n].connected then [End(children[n], how, exchanges[n]).1] else []
  }

  predicate ChildFails(c: Conn, how: Completion, x: Exchange) { c.connected && Fails(End(c, how, x).1) }

  lemma {:induction false} SomeAttemptFails(children: seq<Conn>, how: Completion, exchanges: seq<Exchange>)
    requires |exchanges| == |children|
    ensures Aggregate(Attempts(children, how, exchanges)).Error? <==>
            exists i :: 0 <= i < |children| && ChildFails(children[i], how, exchanges[i])
  {
    if children != [] {
      var n := |children| - 1;
      SomeAttemptFails(children[..n], how, exchanges[..n]);
      AggregateStep(children, how, exchanges, n);
      assert children[..n + 1] == children && exchanges[..n + 1] == exchanges;
      assert forall i :: 0 <= i < n ==> children[..n][i] == children[i] && exchanges[..n][i] == exchanges[i];
    }
  }

  /** One more child: attempted if connected, and combined into the aggregate. */
  lemma AggregateStep(children: seq<Conn>, how: Completion, exchanges: seq<Exchange>, i: nat)
    requires |exchanges| == |children| && i < |children|
    ensures Aggregate(Attempts(children[..i + 1], how, exchanges[..i + 1])) ==
      var before := Aggregate(Attempts(children[..i], how, exchanges[..i]));
      if children[i].connected then Combine(before, End(children[i], how, exchanges[i]).1) else before
  {
    var cs, xs := children[..i + 1], exchanges[..i + 1];
    assert cs[..i] == children[..i] && xs[..i] == exchanges[..i];
    var a := Attempts(children[..i], how, exchanges[..i]);
    if children[i].connected {
      var b := a + [End(children[i], how, exchanges[i]).1];
      assert Attempts(cs, how, xs) == b && b[..|b| - 1] == a;
    } else {
      assert Attempts(cs, how, xs) == a + [] == a;
    }
  }

  method AnyPending(children: seq<Connection>) returns (any: bool)
    ensures any <==> exists i :: 0 <= i < |children| && children[i].pending
  {
    for i := 0 to |children|
      invariant forall k :: 0 <= k < i ==> !children[k].pending
    {
      if children[i].pending { return true; }
    }
    return false;
  }

  /** The views of the children, one for each. */
  ghost predicate Sees(views: seq<Conn>, children: seq<Connection>)
    reads children
  {
    |views| == |children| && forall i :: 0 <= i < |children| ==> children[i].View() == views[i]
  }

  ghost predicate Ready(views: seq<Conn>, exchanges: seq<Exchange>) {
    |views| == |exchanges| && forall i :: 0 <= i < |views| ==> Inv(views[i]) && Completes(views[i], exchanges[i])
  }

  method CompleteAll(children: seq<Connection>, how: Completion, replies: seq<Reply>,
                     ghost views: seq<Conn>, ghost exchanges: seq<Exchange>) returns (code: Code)
    requires Sees(views, children) && Ready(views, exchanges)
    requires |replies| == |children| && forall i :: 0 <= i < |children| ==> exchanges[i].reply == replies[i]
    requires forall i, j :: 0 <= i < j < |children| ==> children[i] != children[j]
    modifies set c | c in children
    ensures forall i :: 0 <= i < |children| ==> children[i].View() == Ended(views[i], how, exchanges[i])
    ensures code == Aggregate(Attempts(views, how, exchanges))
  {
    hide End, Attempts, Aggregate;
    code := Success;
    assert code == Aggregate(Attempts(views[..0], how, exchanges[..0])) by { NoAttempts(how); }
    for i := 0 to |children|
      invariant forall k :: 0 <= k < i ==> children[k].View() == Ended(views[k], how, exchanges[k])
      invariant forall k :: i <= k < |children| ==> children[k].View() == views[k]
      invariant code == Aggregate(Attempts(views[..i], how, exchanges[..i]))
    {
      AggregateStep(views, how, exchanges, i);
      assert children[i].View() == views[i] && Inv(views[i]) && Completes(views[i], exchanges[i]);
      if children[i].connected {
        var result := children[i].EndTransaction(how, replies[i], exchanges[i].after);
        code := Combine(code, result);
      }
    }
    assert views[..|children|] == views && exchanges[..|children|] == exchanges;
  }

  lemma NoAttempts(how: Completion)
    ensures Aggregate(Attempts([], how, [])) == Success
  {
  }

  /** SQLEndTran on an environment: refuses before touching any child, or completes each connected
      child exactly once and returns the aggregate of their codes. */
  method EndEnvironment(children: seq<Connection>, how: Completion, replies: seq<Reply>,
                        ghost views: seq<Conn>, ghost exchanges: seq<Exchange>) returns (code: Code)
    requires Sees(views, children) && Ready(views, exchanges)
    requires |replies| == |children| && forall i :: 0 <= i < |children| ==> exchanges[i].reply == replies[i]
    requires forall i, j :: 0 <= i < j < |children| ==> children[i] != children[j]
    modifies set c | c in children
    ensures how.OtherCompletion? || (exists i :: 0 <= i < |views| && views[i].pending) ==>
      code.Error? && Sees(views, children)
    ensures !how.OtherCompletion? && !(exists i :: 0 <= i < |views| && views[i].pending) ==>
      && (forall i :: 0 <= i < |children| ==> children[i].View() == Ended(views[i], how, exchanges[i]))
      && (forall i :: 0 <= i < |children| ==>
            children[i].sent == if views[i].active then views[i].sent + [Ending(how)] else views[i].sent)
      && code == Aggregate(Attempts(views, how, exchanges))
      && (code.Error? <==> exists i :: 0 <= i < |views| && ChildFails(views[i], how, exchanges[i]))
  {
    hide Ended, ChildFails, Attempts, Aggregate;
    var refused := AnyPending(children);
    assert refused <==> exists i :: 0 <= i < |views| && views[i].pending by { PendingViews(children, views); }
    if refused { return Error; }
    if how.OtherCompletion? { return Error; }
    SomeAttemptFails(views, how, exchanges);
    code := CompleteAll(children, how, replies, views, exchanges);
    forall i | 0 <= i < |children|
      ensures children[i].sent == if views[i].active then views[i].sent + [Ending(how)] else views[i].sent
    {
      assert children[i].View() == Ended(views[i], how, exchanges[i]) && Inv(views[i]) && Completes(views[i], exchanges[i]);
      EndedAsksOnce(views[i], how, exchanges[i]);
    }
  }

  lemma PendingViews(children: seq<Connection>, views: seq<Conn>)
    requires Sees(views, children)
    ensures (exists i :: 0 <= i < |children| && children[i].pending) <==> exists i :: 0 <= i < |views| && views[i].pending
  {
    assert forall i :: 0 <= i < |children| ==> children[i].View().pending == children[i].pending && views[i] == children[i].View();
  }

  /** Each connected child with an open transaction is asked once for the completion given, and the child
      fails exactly when the backend does. */
  lemma EndedAsksOnce(c: Conn, how: Completion, x: Exchange)
    requires Inv(c) && Completes(c, x) && !c.pending && !how.OtherCompletion?
    ensures Ended(c, how, x).sent == if c.active then c.sent + [Ending(how)] else c.sent
    ensures c.active && !ChildFails(c, how, x) ==> !Ended(c, how, x).active && Ended(c, how, x).session.IdleSession?
    ensures ChildFails(c, how, x) <==> c.active && !x.reply.ok
  {
  }
}
