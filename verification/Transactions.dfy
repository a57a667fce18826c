/** The connection's transaction flag against the session's own state, which the driver only learns
    through the snapshots that come with replies. */
module Transactions {
  datatype SessionState = IdleSession | Transaction | FailedTransaction | Unknown | Disconnected

  datatype Disposition = Reusable | ResetRequired | Retire

  /** What the backend answers: success or failure, and the session snapshot it comes with. */
  datatype Reply = Reply(ok: bool, timeout: bool, state: SessionState, disposition: Disposition)

  /** A reply, and the state the session is really in once it was sent. */
  datatype Exchange = Exchange(reply: Reply, after: SessionState)

  datatype Code = Success | Info | Error | InvalidHandle

  datatype Completion = Commit | Rollback | OtherCompletion

  /** What the driver sends: BEGIN, a statement with the commit mode and whether the session was in a
      transaction then, and COMMIT or ROLLBACK. */
  datatype Sent = BeginSent | Statement(manual: bool, open: bool) | Ending(how: Completion)

  /** The driver's fields, the session's real state, and everything sent to it. */
  datatype Conn = Conn(
    connected: bool, autocommit: bool, active: bool, pending: bool,
    session: SessionState, sent: seq<Sent>)

  predicate Open(s: SessionState) { s.Transaction? || s.FailedTransaction? }

  predicate Definite(s: SessionState) { Open(s) || s.IdleSession? }

  /** A reply that the session cannot be used any more. */
  predicate Lost(r: Reply) { r.disposition.Retire? || r.state.Unknown? || r.state.Disconnected? }

  predicate TimedOut(r: Reply) { !r.ok && r.timeout }

  /** A definite snapshot is the truth; without a connection the wrapper answers by itself. */
  predicate Honest(c: Conn, x: Exchange) {
    && (Definite(x.reply.state) ==> x.after == x.reply.state)
    && (!c.connected ==> x == Exchange(Reply(false, false, Disconnected, Reusable), Disconnected))
  }

  /** The backends report a completed transaction only from an idle session. */
  predicate Completes(c: Conn, x: Exchange) { Honest(c, x) && (x.reply.ok ==> x.reply.state.IdleSession?) }

  predicate Inv(c: Conn) { c.active ==> c.connected && !c.autocommit }

  /** In manual-commit mode the flag says whether the session is in a transaction. */
  predicate Agrees(c: Conn) { c.connected && !c.autocommit ==> (c.active <==> Open(c.session)) }

  // ---- the operations -------------------------------------------------------------

  function Closed(c: Conn): Conn { c.(connected := false, active := false, session := Disconnected) }

  /** Without a connection nothing is sent. */
  function Sending(c: Conn, what: Sent): Conn { if c.connected then c.(sent := c.sent + [what]) else c }

  /** begin_transaction_if_needed; true when a statement may be dispatched. */
  function Begin(c: Conn, x: Exchange): (Conn, bool) {
    if c.autocommit || c.active then (c, true)
    else
      var d := Sending(c, BeginSent);
      if !x.reply.ok then
        (if Lost(x.reply) then Closed(d) else d.(active := Open(x.reply.state), session := x.after), false)
      else if x.reply.state != Transaction || x.reply.disposition != ResetRequired then (Closed(d), false)
      else (d.(active := true, session := x.after), true)
  }

  /** reconcile_transaction_state. */
  function Reconcile(c: Conn, state: SessionState): Conn {
    if c.autocommit || !Definite(state) then c else c.(active := Open(state))
  }

  /** The statement goes out, its reply is reconciled, and a timeout closes the connection. */
  function Dispatch(c: Conn, x: Exchange): Conn {
    var d := Reconcile(Sending(c, Statement(!c.autocommit, Open(c.session))).(session := x.after), x.reply.state);
    if TimedOut(x.reply) then Closed(d) else d
  }

  /** A scalar statement: open a transaction if needed, then dispatch. */
  function Execute(c: Conn, begin: Exchange, x: Exchange): Conn {
    var (d, ok) := Begin(c, begin);
    if ok then Dispatch(d, x) else if TimedOut(begin.reply) then Closed(d) else d
  }

  /** end_transaction. */
  function End(c: Conn, how: Completion, x: Exchange): (Conn, Code) {
    if c.pending || how.OtherCompletion? || !c.connected then (c, Error)
    else if c.autocommit || !c.active then (c, Success)
    else
      var d := Sending(c, Ending(how)).(session := x.after);
      if x.reply.ok then (d.(active := false), Success)
      else if x.reply.timeout || Lost(x.reply) then (Closed(d), Error)
      else (d.(active := Open(x.reply.state)), Error)
  }

  /** Setting SQL_ATTR_AUTOCOMMIT. */
  function SetAutocommit(c: Conn, on: bool, supported: bool, x: Exchange): (Conn, Code) {
    if c.autocommit == on then (c, Success)
    else if !on then (if supported then c.(autocommit := false) else c, if supported then Success else Error)
    else if c.connected && c.active then
      var (d, code) := End(c, Commit, x);
      if code.Success? then (d.(autocommit := true), Success) else (d, code)
    else (c.(autocommit := true), Success)
  }

  /** SQLDisconnect; `alive` is whether the session still answers. */
  function Disconnect(c: Conn, alive: bool): (Conn, Code) {
    if c.pending || !c.connected || (c.active && alive) then (c, Error) else (Closed(c), Success)
  }

  datatype Op =
    | Connect
    | Run(begin: Exchange, x: Exchange)
    | Finish(how: Completion, x: Exchange)
    | Autocommit(on: bool, supported: bool, x: Exchange)
    | Leave(alive: bool)
    | Fail                       // the connection is closed by a failure elsewhere
    | SetPending(pending: bool)  // a statement enters or leaves Need Data or a result sequence

  predicate Allowed(c: Conn, op: Op) {
    match op
    case Connect => !c.connected
    case Run(begin, x) => Honest(c, begin) && Honest(Begin(c, begin).0, x)
    case Finish(_, x) => Completes(c, x)
    case Autocommit(_, _, x) => Completes(c, x)
    case _ => true
  }

  function Apply(c: Conn, op: Op): Conn {
    match op
    case Connect => c.(connected := true, session := IdleSession)
    case Run(begin, x) => Execute(c, begin, x)
    case Finish(how, x) => End(c, how, x).0
    case Autocommit(on, supported, x) => SetAutocommit(c, on, supported, x).0
    case Leave(alive) => Disconnect(c, alive).0
    case Fail => Closed(c)
    case SetPending(p) => c.(pending := p)
  }

  // ---- when the flag stays right --------------------------------------------------

  /** A statement reached the session in manual-commit mode and did not time out. */
  predicate Dispatches(c: Conn, begin: Exchange, x: Exchange) {
    Begin(c, begin).1 && c.connected && !c.autocommit && !TimedOut(x.reply)
  }

  /** The two ways to lose track: a statement ends the transaction and its reply does not say what the
      session became, or manual-commit mode is entered while the session is in a transaction that SQL text
      opened under autocommit. */
  predicate Drifts(c: Conn, op: Op) {
    match op
    case Run(begin, x) => Dispatches(c, begin, x) && !Definite(x.reply.state) && !Open(x.after)
    case Autocommit(on, supported, _) => !on && supported && c.autocommit && c.connected && Open(c.session)
    case _ => false
  }

  /** An operation breaks the agreement of flag and session exactly in those two ways. */
  lemma AgreementLostIff(c: Conn, op: Op)
    requires Inv(c) && Agrees(c) && Allowed(c, op)
    ensures Agrees(Apply(c, op)) <==> !Drifts(c, op)
  {
    if op.Run? { DispatchIsOpen(c, op.begin); }
  }

  /** Whatever the session does, a dispatched statement leaves the flag right exactly when its reply is
      definite. */
  lemma RightExactlyWhenDefinite(c: Conn, begin: Exchange, r: Reply)
    requires Inv(c) && Agrees(c) && Honest(c, begin) && Dispatches(c, begin, Exchange(r, r.state))
    ensures (forall after | Honest(Begin(c, begin).0, Exchange(r, after)) :: Agrees(Execute(c, begin, Exchange(r, after)))) <==>
            Definite(r.state)
  {
    DispatchIsOpen(c, begin);
    var idle := Exchange(r, IdleSession);
    if !Definite(r.state) {
      assert Honest(Begin(c, begin).0, idle) && !Agrees(Execute(c, begin, idle));
    }
  }

  /** A statement may be dispatched in manual-commit mode only into an open transaction. */
  lemma DispatchIsOpen(c: Conn, begin: Exchange)
    requires Inv(c) && Agrees(c) && Honest(c, begin)
    ensures var (d, ok) := Begin(c, begin);
      && Inv(d) && Agrees(d)
      && (ok && c.connected && !c.autocommit ==> d.connected && d.active && Open(d.session))
      && (ok && !c.connected ==> c.autocommit)
  {
  }

  predicate AllOpen(sent: seq<Sent>) { forall i :: 0 <= i < |sent| && sent[i].Statement? && sent[i].manual ==> sent[i].open }

  lemma ApplyKeepsInv(c: Conn, op: Op)
    requires Inv(c) && Allowed(c, op)
    ensures Inv(Apply(c, op))
    ensures Agrees(c) && AllOpen(c.sent) ==> AllOpen(Apply(c, op).sent)
  {
    if op.Run? && Agrees(c) { DispatchIsOpen(c, op.begin); }
  }

  ghost predicate IsRun(states: seq<Conn>, ops: seq<Op>) {
    && |states| == |ops| + 1 && states[0] == Conn(false, states[0].autocommit, false, false, Disconnected, [])
    && forall i :: 0 <= i < |ops| ==> Allowed(states[i], ops[i]) && states[i + 1] == Apply(states[i], ops[i])
  }

  /** On every run an active transaction means connected and in manual-commit mode. As long as nothing
      drifted, the flag is the session's own state, and every statement dispatched in manual-commit mode
      went into an open transaction. */
  lemma {:induction false} RunKeepsInv(states: seq<Conn>, ops: seq<Op>, k: nat)
    requires IsRun(states, ops) && k < |states|
    ensures Inv(states[k])
    ensures (forall i :: 0 <= i < k ==> !Drifts(states[i], ops[i])) ==> Agrees(states[k]) && AllOpen(states[k].sent)
  {
    hide Allowed, Apply, Drifts;
    if k > 0 {
      RunKeepsInv(states, ops, k - 1);
      ApplyKeepsInv(states[k - 1], ops[k - 1]);
      if Agrees(states[k - 1]) { AgreementLostIff(states[k - 1], ops[k - 1]); }
    }
  }

  const BEGUN := Exchange(Reply(true, false, Transaction, ResetRequired), Transaction)
  const SILENT := Exchange(Reply(true, false, Unknown, Reusable), IdleSession)

  /** A run on which a statement is dispatched outside any transaction: the first statement ends the
      transaction, its reply says Unknown, and the second goes out without a BEGIN. */
  lemma DriftingRun() returns (states: seq<Conn>, ops: seq<Op>)
    ensures IsRun(states, ops) && states[|states| - 1].sent == [BeginSent, Statement(true, true), Statement(true, false)]
  {
    ops := [Connect, Run(BEGUN, SILENT), Run(BEGUN, SILENT)];
    var c0 := Conn(false, false, false, false, Disconnected, []);
    var c1 := c0.(connected := true, session := IdleSession);
    var c2 := c1.(active := true, sent := [BeginSent, Statement(true, true)]);
    states := [c0, c1, c2, c2.(sent := [BeginSent, Statement(true, true), Statement(true, false)])];
  }

  // ---- what is sent -----------------------------------------------------------------

  /** BEGIN completed exactly as it must. */
  predicate Confirms(r: Reply) { r.ok && r.state.Transaction? && r.disposition.ResetRequired? }

  /** What executing one statement sends: the statement alone under autocommit or inside a transaction;
      otherwise BEGIN, and the statement only after its confirmation; nothing without a connection. */
  lemma ExecuteSends(c: Conn, begin: Exchange, x: Exchange)
    requires Inv(c) && Honest(c, begin)
    ensures var d := Execute(c, begin, x);
      d.sent == c.sent +
        if !c.connected then []
        else if c.autocommit || c.active then [Statement(!c.autocommit, Open(c.session))]
        else if Confirms(begin.reply) then [BeginSent, Statement(true, true)]
        else [BeginSent]
  {
    assert c.sent + [] == c.sent;
    assert c.sent + [BeginSent] + [Statement(true, true)] == c.sent + [BeginSent, Statement(true, true)];
  }

  /** Completing sends the completion asked for, once, and exactly when there is a transaction to
      complete; success leaves none, and failure leaves the flag right or the connection closed. */
  lemma EndMeans(c: Conn, how: Completion, x: Exchange)
    requires Inv(c) && Completes(c, x)
    ensures var (d, code) := End(c, how, x);
      && Inv(d) && (Agrees(c) ==> Agrees(d))
      && d.sent == (if c.active && !c.pending && !how.OtherCompletion? then c.sent + [Ending(how)] else c.sent)
      && (code.Success? ==> !d.active && d.connected)
      && (code.Error? <==> c.pending || how.OtherCompletion? || !c.connected || (c.active && !x.reply.ok))
  {
  }

  /** Turning autocommit on never abandons an open transaction: COMMIT is sent first and completes, or
      the mode stays manual. Nothing else is sent by a change of mode. */
  lemma AutocommitCommitsFirst(c: Conn, on: bool, supported: bool, x: Exchange)
    requires Inv(c) && Completes(c, x)
    ensures var (d, code) := SetAutocommit(c, on, supported, x);
      && (code.Success? <==> d.autocommit == on)
      && d.sent == (if c.active && on && !c.pending then c.sent + [Ending(Commit)] else c.sent)
      && (c.active && on ==> (code.Success? <==> !c.pending && x.reply.ok))
      && (c.active && on && code.Success? ==> d.session.IdleSession?)
      && (!code.Success? && Agrees(c) ==> Agrees(d))
  {
  }

  /** Disconnecting closes the connection exactly when it is open, no statement is pending and no
      transaction of a live session would be lost; otherwise nothing changes. */
  lemma DisconnectKeepsWork(c: Conn, alive: bool)
    ensures var (d, code) := Disconnect(c, alive);
      && (code.Success? <==> c.connected && !c.pending && !(c.active && alive))
      && (if code.Success? then !d.connected && !d.active else d == c) && d.sent == c.sent
  {
  }
}
