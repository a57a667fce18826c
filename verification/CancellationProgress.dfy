/** Cancelling works and not cancelling works: a cancel that comes in time stops an attempt for good, and
    an attempt that nobody claimed can always still be dispatched. */
module CancellationProgress {
  import opened Cancellation

  /** The owner has neither passed its gate nor ended. */
  predicate BeforeGate(s: State) {
    match s.owner
    case Preparing => true
    case Publishing => true
    case Working(_) => true
    case Checking(_, _, _) => true
    case Ending(_) => true
    case Gate => true
    case Returning(_) => s.published
    case Idle => s.published
    case _ => false
  }

  /** The attempt can be cancelled locally: the server supports it, or the attempt is in Need Data, which
      it is from the moment it begins to publish its input. */
  predicate Cancellable(s: State, eligible: bool) {
    if s.owner.Preparing? then eligible else !s.mode.Direct?
  }

  /** What the ledger says before the gate. */
  predicate LedgerInv(s: State, eligible: bool) {
    BeforeGate(s) ==>
      && s.ledger.active && s.ledger.preparing
      && (if s.owner.Preparing? then s.ledger.available == eligible else !s.mode.Direct? && s.ledger.localNeedData)
  }

  lemma StepKeepsLedger(s: State, step: Step, eligible: bool)
    requires Inv(s) && LedgerInv(s, eligible)
    ensures LedgerInv(Next(s, step), eligible)
  {
    hide ResetPending, Unseen;
    if step.Cancel? && step.who < |s.cancellers| { CancelKeepsLedger(s, step.who, eligible); }
  }

  lemma CancelKeepsLedger(s: State, i: nat, eligible: bool)
    requires Inv(s) && LedgerInv(s, eligible) && i < |s.cancellers|
    ensures LedgerInv(CancelStep(s, i), eligible)
  {
    hide ResetPending, Unseen;
  }

  lemma {:induction false} RunKeepsLedger(mode: Mode, eligible: bool, n: nat, steps: seq<Step>)
    ensures Inv(Exec(Init(mode, eligible, n), steps)) && LedgerInv(Exec(Init(mode, eligible, n), steps), eligible)
    decreases |steps|
  {
    RunKeepsInv(Init(mode, eligible, n), steps);
    if steps != [] {
      hide Inv, LedgerInv, Next;
      RunKeepsLedger(mode, eligible, n, steps[..|steps| - 1]);
      StepKeepsLedger(Exec(Init(mode, eligible, n), steps[..|steps| - 1]), steps[|steps| - 1], eligible);
    }
  }

  /** A canceller whose second step falls before the gate of a cancellable attempt stops it: whatever
      follows, nothing is ever dispatched. */
  lemma CancelInTimeStops(mode: Mode, eligible: bool, n: nat, steps: seq<Step>, i: nat, more: seq<Step>)
    requires var s := Exec(Init(mode, eligible, n), steps);
      i < |s.cancellers| && s.cancellers[i].Snapped? && BeforeGate(s) && Cancellable(s, eligible)
    ensures var s := Exec(Init(mode, eligible, n), steps + [Cancel(i)]);
      Exec(s, more).dispatched == 0 && s.cancellers[i].Claimed?
  {
    var s := Exec(Init(mode, eligible, n), steps);
    RunKeepsLedger(mode, eligible, n, steps);
    assert (steps + [Cancel(i)])[..|steps|] == steps;
    var t := CancelStep(s, i);
    assert t.ledger.claimed;
    CancelKeepsInv(s, i);
    RunKeepsInv(t, more);
    ClaimIsStable(t, more);
  }

  // ---- an attempt that nobody claimed ---------------------------------------------

  lemma {:induction false} ExecFirst(s: State, step: Step, more: seq<Step>)
    ensures Exec(s, [step] + more) == Exec(Next(s, step), more)
    decreases |more|
  {
    hide Next;
    var all := [step] + more;
    if more == [] {
      assert all == [step] && all[..0] == [];
    } else {
      assert all[..|all| - 1] == [step] + more[..|more| - 1];
      ExecFirst(s, step, more[..|more| - 1]);
    }
  }

  /** Steps to dispatch from each place. */
  function Distance(o: Owner): nat {
    match o
    case Gate => 1
    case Checking(entry, starting, last) => if entry then (if starting then 10 else 4) else if last then 2 else 8
    case Working(starting) => if starting then 9 else 3
    case Idle => 5
    case Returning(_) => 6
    case Ending(_) => 7
    case Publishing => 11
    case Preparing => 12
    case _ => 0
  }

  /** What the owner does next when nothing goes wrong. */
  function Onward(s: State): Step {
    match s.owner
    case Preparing => if s.mode.Direct? then PassGate else BeginNeedData(true)
    case Publishing => Publish
    case Working(starting) => Work(if starting then MoreToAsk else AllSupplied)
    case Checking(_, _, _) => Check(false)
    case Ending(_) => End
    case Returning(_) => Return
    case Idle => Call
    case _ => PassGate
  }

  lemma OnwardGoesOn(s: State)
    requires Inv(s) && BeforeGate(s) && !s.ledger.claimed
    ensures var t := Next(s, Onward(s));
      && !t.ledger.claimed && t.dispatched == s.dispatched
      && (t.owner.Dispatching? || (BeforeGate(t) && Distance(t.owner) < Distance(s.owner)))
  {
    hide ResetPending, Unseen;
  }

  lemma {:induction false} UnclaimedCanDispatch(s: State) returns (more: seq<Step>)
    requires Inv(s) && BeforeGate(s) && !s.ledger.claimed
    ensures Exec(s, more).dispatched == s.dispatched + 1
    decreases Distance(s.owner)
  {
    hide Next, Inv;
    var t := Next(s, Onward(s));
    OnwardGoesOn(s);
    assert Inv(t) by { OnwardKeepsInv(s); }
    var rest: seq<Step>;
    if t.owner.Dispatching? {
      rest := [Send];
      assert Exec(t, [Send]) == Next(t, Send) by { assert [Send][..0] == []; }
      SendSends(t);
    } else {
      rest := UnclaimedCanDispatch(t);
    }
    more := [Onward(s)] + rest;
    ExecFirst(s, Onward(s), rest);
  }

  lemma OnwardKeepsInv(s: State)
    requires Inv(s)
    ensures Inv(Next(s, Onward(s)))
  {
    hide Inv, OwnerStep;
    OwnerKeepsInv(s, Onward(s));
  }

  lemma SendSends(s: State)
    requires s.owner.Dispatching?
    ensures Next(s, Send).dispatched == s.dispatched + 1
  {
  }

  /** Before its gate an attempt can still be dispatched exactly when nobody claimed it. */
  lemma DispatchableIff(mode: Mode, eligible: bool, n: nat, steps: seq<Step>)
    requires BeforeGate(Exec(Init(mode, eligible, n), steps))
    ensures var s := Exec(Init(mode, eligible, n), steps);
      (exists more :: Exec(s, more).dispatched > 0) <==> !s.ledger.claimed
  {
    hide Next;
    var s := Exec(Init(mode, eligible, n), steps);
    RunKeepsInv(Init(mode, eligible, n), steps);
    if !s.ledger.claimed {
      var more := UnclaimedCanDispatch(s);
      assert Exec(s, more).dispatched > 0;
    } else {
      forall more ensures Exec(s, more).dispatched == 0 {
        ClaimPreventsDispatch(mode, eligible, n, steps, more);
      }
    }
  }

  /** So an execution that nobody cancels can be dispatched, in every mode. */
  lemma UncancelledDispatches(mode: Mode, eligible: bool, n: nat) returns (steps: seq<Step>)
    ensures Exec(Init(mode, eligible, n), steps).dispatched == 1
  {
    steps := UnclaimedCanDispatch(Init(mode, eligible, n));
  }
}
