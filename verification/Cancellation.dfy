/** One execution attempt, its owner thread and any number of cancellers. Every step is one
    mutex-protected block of the source or a step that only the owner can see. */
module Cancellation {
  datatype Mode = Direct | Scalar | ArrayMode

  /** Where the owner is. `starting` marks the call that opened the Need Data state, which has no
      call guard; `last` marks the SQLParamData that found nothing more to ask for. */
  datatype Owner =
    | Preparing
    | Publishing
    | Checking(entry: bool, starting: bool, last: bool)
    | Working(starting: bool)
    | Ending(starting: bool)
    | Gate
    | Dispatching
    | Abandoning(starting: bool)
    | Returning(starting: bool)
    | Idle
    | Done
    | Refused   // the attempt ended before it published anything

  /** Where a canceller is: `sawInput` is its snapshot of the pending input. */
  datatype Canceller = Outside | Snapped(sawInput: bool) | Claimed(reset: bool) | Finished

  datatype Ledger = Ledger(active: bool, available: bool, preparing: bool, claimed: bool, localNeedData: bool)

  datatype State = State(
    mode: Mode, owner: Owner, cancellers: seq<Canceller>, ledger: Ledger,
    inCall: bool, published: bool,
    released: nat,      // times the pending input was taken out and finished
    dispatched: nat,    // BEGINs and queries issued
    idleClaim: bool)    // some claim saw the input and found no call in progress

  datatype Step =
    | BeginNeedData(available: bool)
    | GiveUp                  // the execution fails before it publishes or dispatches
    | Publish
    | Check(lost: bool)       // pending_call_ready; lost: deadline or session gone
    | Work(outcome: Outcome)
    | End
    | Call
    | Drop                    // the statement is closed or freed while Need Data
    | PassGate
    | Send
    | Complete
    | Abandon
    | Return
    | Cancel(who: nat)

  datatype Outcome = Fails | MoreToAsk | NothingSupplied | AllSupplied

  function Init(mode: Mode, eligible: bool, cancellers: nat): State {
    State(mode, Preparing, seq(cancellers, _ => Outside), Ledger(true, eligible, true, false, false), true, false, 0, 0, false)
  }

  // ---- the owner ------------------------------------------------------------------

  /** abandon_pending_input: takes the input out under the cancellation mutex, then finishes it. */
  function Released(s: State): State {
    s.(published := false, released := s.released + (if s.published then 1 else 0), ledger := s.ledger.(active := false))
  }

  function OwnerStep(s: State, step: Step): (t: State)
    ensures t.mode == s.mode && t.ledger.claimed == s.ledger.claimed && (t.ledger.preparing ==> s.ledger.preparing)
  {
    match s.owner
    case Preparing =>
      if step.GiveUp? then s.(owner := Refused, ledger := s.ledger.(active := false))
      else if step.PassGate? && s.mode.Direct? then PassedGate(s)
      else if step.BeginNeedData? && !s.mode.Direct? then
        s.(owner := Publishing,
           ledger := s.ledger.(available := step.available && !s.mode.ArrayMode?, localNeedData := true))
      else s
    case Publishing => if step.Publish? then s.(published := true, owner := Working(true)) else s
    case Working(starting) => if step.Work? then Worked(s, starting, step.outcome) else s
    case Checking(entry, starting, last) => if step.Check? then Checked(s, entry, starting, last, step.lost) else s
    case Ending(starting) =>
      if !step.End? then s
      else if s.ledger.claimed then s.(owner := Abandoning(starting))
      else s.(inCall := false, owner := Returning(starting))
    case Gate => if step.PassGate? then PassedGate(s) else s
    case Dispatching =>
      if step.Send? then s.(dispatched := s.dispatched + 1)
      else if step.Complete? then s.(owner := Abandoning(false)) else s
    case Abandoning(starting) => if step.Abandon? then Released(s).(owner := Returning(starting)) else s
    case Returning(starting) =>
      if !step.Return? then s
      else s.(inCall := starting && s.inCall, owner := if s.published then Idle else Done)
    case Idle =>
      if !s.published then s
      else if step.Call? then s.(owner := Checking(true, false, false))
      else if step.Drop? then s.(owner := Abandoning(false)) else s
    case _ => s
  }

  /** The body of a call. Only a call after the first can find nothing supplied, or nothing left to
      ask for. */
  function Worked(s: State, starting: bool, outcome: Outcome): State {
    match outcome
    case Fails => s.(owner := Abandoning(starting))
    case MoreToAsk => s.(owner := Checking(false, starting, false))
    case NothingSupplied => if starting then s else s.(inCall := false, owner := Returning(false))
    case AllSupplied => if starting then s else s.(owner := Checking(false, false, true))
  }

  /** pending_call_ready. */
  function Checked(s: State, entry: bool, starting: bool, last: bool, lost: bool): State {
    if lost then s.(owner := Abandoning(starting))
    else if s.ledger.claimed then s.(inCall := true, owner := Abandoning(starting))
    else s.(inCall := true, owner := if entry then Working(starting) else if last then Gate else Ending(starting))
  }

  /** before_transaction, or the array path's phase transition. */
  function PassedGate(s: State): State {
    if s.ledger.claimed then
      s.(owner := Abandoning(false), ledger := if s.mode.ArrayMode? then s.ledger else s.ledger.(preparing := false))
    else if s.mode.ArrayMode? then
      s.(owner := Dispatching, ledger := s.ledger.(preparing := false, available := false, localNeedData := false))
    else s.(owner := Dispatching, ledger := s.ledger.(preparing := false))
  }

  // ---- a canceller ----------------------------------------------------------------

  predicate Claimable(l: Ledger) { l.active && l.preparing && (l.available || l.localNeedData) }

  /** The statement's handle lock is free: the owner is between calls. */
  predicate Unlocked(s: State) { s.owner.Idle? || s.owner.Done? || s.owner.Refused? }

  function CancelStep(s: State, i: nat): (t: State)
    requires i < |s.cancellers|
    ensures t.mode == s.mode && t.ledger.preparing == s.ledger.preparing
    ensures t.ledger.claimed == s.ledger.claimed || (t.ledger.claimed && s.ledger.preparing)
  {
    match s.cancellers[i]
    case Outside => s.(cancellers := s.cancellers[i := Snapped(s.published)])
    case Snapped(saw) =>
      if Claimable(s.ledger) then
        s.(ledger := s.ledger.(claimed := true), idleClaim := s.idleClaim || (saw && !s.inCall),
           cancellers := s.cancellers[i := Claimed(saw && !s.inCall)])
      else s.(cancellers := s.cancellers[i := Finished])
    case Claimed(reset) =>
      if !reset then s.(cancellers := s.cancellers[i := Finished])
      else if Unlocked(s) then Reset(s, i)
      else s
    case Finished => s
  }

  /** Under the handle lock: abandon if the input is still the pending one. */
  function Reset(s: State, i: nat): State
    requires i < |s.cancellers|
  {
    (if s.published then Released(s) else s).(cancellers := s.cancellers[i := Finished])
  }

  /** One step of any thread; a step that is not enabled changes nothing. */
  function Next(s: State, step: Step): State {
    if step.Cancel? then (if step.who < |s.cancellers| then CancelStep(s, step.who) else s) else OwnerStep(s, step)
  }

  function Exec(s: State, steps: seq<Step>): State
    decreases |steps|
  {
    if steps == [] then s else Next(Exec(s, steps[..|steps| - 1]), steps[|steps| - 1])
  }

  /** Some canceller owes a reset. */
  predicate ResetPending(cancellers: seq<Canceller>) { Claimed(true) in cancellers }

  // ---- the invariant --------------------------------------------------------------

  /** Nobody has seen an input that was never published. */
  predicate Unseen(cancellers: seq<Canceller>) { Snapped(true) !in cancellers }

  predicate Fresh(s: State) {
    && !s.published && s.released == 0 && s.dispatched == 0 && s.ledger.preparing && s.ledger.active
    && !s.idleClaim && Unseen(s.cancellers)
  }

  predicate OwnerInv(s: State) {
    match s.owner
    case Preparing => Fresh(s)
    case Publishing => !s.mode.Direct? && Fresh(s)
    case Idle =>
      && !s.mode.Direct? && !s.inCall && s.ledger.preparing && s.dispatched == 0
      && (!s.published ==> s.released == 1 && s.idleClaim)
    case Returning(_) => s.published ==> !s.inCall && s.ledger.preparing && s.dispatched == 0
    case Done => !s.published
    case Refused => !s.published && s.released == 0 && s.dispatched == 0 && !s.idleClaim && Unseen(s.cancellers)
    case Abandoning(_) => !s.mode.Direct? ==> s.published
    case Dispatching => !s.ledger.preparing && !s.ledger.claimed && (!s.mode.Direct? ==> s.published)
    case _ => !s.mode.Direct? && s.published && s.ledger.preparing && s.dispatched == 0
  }

  predicate Inv(s: State) {
    && OwnerInv(s)
    && (if s.published then s.released == 0 && s.ledger.active else s.released <= 1)
    && (s.mode.Direct? ==> !s.published && s.released == 0)
    && (!s.mode.Direct? && !s.published && !s.owner.Preparing? && !s.owner.Publishing? && !s.owner.Refused? ==> s.released == 1)
    && (s.dispatched > 0 ==> !s.ledger.preparing && !s.ledger.claimed)
    && (s.idleClaim ==> s.ledger.claimed)
    && (s.idleClaim && s.published ==> ResetPending(s.cancellers))
    && (ResetPending(s.cancellers) ==> s.idleClaim)
  }

  lemma OwnerKeepsInv(s: State, step: Step)
    requires Inv(s)
    ensures Inv(OwnerStep(s, step))
  {
    hide ResetPending, Unseen;
  }

  /** What an update of one canceller does to membership of another value. */
  lemma Elsewhere(cs: seq<Canceller>, i: nat, c: Canceller, d: Canceller)
    requires i < |cs|
    ensures c == d ==> d in cs[i := c]
    ensures c != d && cs[i] != d ==> (d in cs[i := c] <==> d in cs)
    ensures c != d && d in cs[i := c] ==> d in cs
  {
    if c == d { assert cs[i := c][i] == d; }
    if c != d && cs[i] != d && d in cs {
      var k :| 0 <= k < |cs| && cs[k] == d;
      assert cs[i := c][k] == d;
    }
  }

  /** A step that only moves canceller i, and not out of an owed reset. */
  lemma MoveKeepsInv(s: State, i: nat, c: Canceller)
    requires Inv(s) && i < |s.cancellers|
    requires c == Snapped(s.published) || c == Finished || c == Claimed(false)
    requires s.cancellers[i] != Claimed(true)
    ensures Inv(s.(cancellers := s.cancellers[i := c]))
  {
    Elsewhere(s.cancellers, i, c, Claimed(true));
    Elsewhere(s.cancellers, i, c, Snapped(true));
  }

  lemma ClaimKeepsInv(s: State, i: nat)
    requires Inv(s) && i < |s.cancellers| && s.cancellers[i].Snapped? && Claimable(s.ledger)
    ensures Inv(CancelStep(s, i))
  {
    var reset := s.cancellers[i].sawInput && !s.inCall;
    assert s.cancellers[i] in s.cancellers;
    Elsewhere(s.cancellers, i, Claimed(reset), Claimed(true));
    Elsewhere(s.cancellers, i, Claimed(reset), Snapped(true));
  }

  lemma ResetKeepsInv(s: State, i: nat)
    requires Inv(s) && i < |s.cancellers| && s.cancellers[i] == Claimed(true) && Unlocked(s)
    ensures Inv(Reset(s, i))
  {
    assert s.cancellers[i] in s.cancellers;
    Elsewhere(s.cancellers, i, Finished, Claimed(true));
    Elsewhere(s.cancellers, i, Finished, Snapped(true));
  }

  lemma CancelKeepsInv(s: State, i: nat)
    requires Inv(s) && i < |s.cancellers|
    ensures Inv(CancelStep(s, i))
  {
    hide Inv, Reset;
    match s.cancellers[i]
    case Outside => MoveKeepsInv(s, i, Snapped(s.published));
    case Snapped(_) => if Claimable(s.ledger) { ClaimKeepsInv(s, i); } else { MoveKeepsInv(s, i, Finished); }
    case Claimed(reset) =>
      if !reset { MoveKeepsInv(s, i, Finished); } else if Unlocked(s) { ResetKeepsInv(s, i); }
    case Finished =>
  }

  lemma {:induction false} RunKeepsInv(s: State, steps: seq<Step>)
    requires Inv(s)
    ensures Inv(Exec(s, steps))
    decreases |steps|
  {
    hide Inv, OwnerStep, CancelStep;
    if steps != [] {
      var mid := Exec(s, steps[..|steps| - 1]);
      RunKeepsInv(s, steps[..|steps| - 1]);
      var step := steps[|steps| - 1];
      if !step.Cancel? { OwnerKeepsInv(mid, step); }
      else if step.who < |mid.cancellers| { CancelKeepsInv(mid, step.who); }
    }
  }

  // ---- what holds of every interleaving -------------------------------------------

  /** A claimed attempt has issued nothing and never will; the input is released at most once. */
  lemma ClaimPreventsDispatch(mode: Mode, eligible: bool, n: nat, steps: seq<Step>, more: seq<Step>)
    ensures var s := Exec(Init(mode, eligible, n), steps);
      s.ledger.claimed ==> Exec(s, more).ledger.claimed && Exec(s, more).dispatched == 0
    ensures Exec(Init(mode, eligible, n), steps).released <= 1
  {
    hide Next;
    var s := Exec(Init(mode, eligible, n), steps);
    RunKeepsInv(Init(mode, eligible, n), steps);
    RunKeepsInv(s, more);
    ClaimIsStable(s, more);
  }

  lemma StepKeepsClaim(s: State, step: Step)
    ensures s.ledger.claimed ==> Next(s, step).ledger.claimed
    ensures !s.ledger.preparing ==> !Next(s, step).ledger.preparing && Next(s, step).ledger.claimed == s.ledger.claimed
    ensures Next(s, step).mode == s.mode
  {
    hide OwnerStep, CancelStep;
  }

  lemma {:induction false} ClaimIsStable(s: State, steps: seq<Step>)
    ensures s.ledger.claimed ==> Exec(s, steps).ledger.claimed
    ensures !s.ledger.preparing ==> !Exec(s, steps).ledger.preparing && Exec(s, steps).ledger.claimed == s.ledger.claimed
    ensures Exec(s, steps).mode == s.mode
    decreases |steps|
  {
    hide Next;
    if steps != [] {
      ClaimIsStable(s, steps[..|steps| - 1]);
      StepKeepsClaim(Exec(s, steps[..|steps| - 1]), steps[|steps| - 1]);
    }
  }

  /** The converse: once an attempt has dispatched, its phase is closed and no claim can be made. */
  lemma DispatchPreventsClaim(mode: Mode, eligible: bool, n: nat, steps: seq<Step>, more: seq<Step>)
    ensures var s := Exec(Init(mode, eligible, n), steps);
      s.dispatched > 0 ==> !s.ledger.preparing && !Exec(s, more).ledger.claimed
  {
    hide Next;
    var s := Exec(Init(mode, eligible, n), steps);
    RunKeepsInv(Init(mode, eligible, n), steps);
    ClaimIsStable(s, more);
  }

  /** While the attempt is idle and no canceller still owes a reset, a claimed input has been
      released exactly when some claim saw it and found no call in progress. */
  lemma IdleClaimReleasesIff(mode: Mode, eligible: bool, n: nat, steps: seq<Step>)
    ensures var s := Exec(Init(mode, eligible, n), steps);
      s.owner.Idle? && !ResetPending(s.cancellers) ==> (s.released == 1 <==> s.idleClaim) && (s.released == 1 <==> !s.published)
  {
    hide Next;
    RunKeepsInv(Init(mode, eligible, n), steps);
  }

  /** Where the owner can be during and after its first call on an idle, claimed attempt. */
  predicate Refusing(s: State) {
    && s.ledger.claimed && s.dispatched == 0
    && (s.owner.Idle? || (s.owner.Checking? && s.owner.entry) || s.owner.Abandoning? ||
        ((s.owner.Returning? || s.owner.Done?) && !s.published))
  }

  lemma StepKeepsRefusing(s: State, step: Step)
    requires Inv(s) && Refusing(s)
    ensures Refusing(Next(s, step))
  {
    hide ResetPending, Unseen;
  }

  lemma {:induction false} RefusingIsStable(s: State, steps: seq<Step>)
    requires Inv(s) && Refusing(s)
    ensures Refusing(Exec(s, steps))
    decreases |steps|
  {
    hide Next, Inv, Refusing;
    if steps != [] {
      RefusingIsStable(s, steps[..|steps| - 1]);
      RunKeepsInv(s, steps[..|steps| - 1]);
      StepKeepsRefusing(Exec(s, steps[..|steps| - 1]), steps[|steps| - 1]);
    }
  }

  /** Whatever cancellers do meanwhile, the owner's next call on an idle claimed attempt ends with
      the input released exactly once and nothing dispatched. */
  lemma NextCallReleases(mode: Mode, eligible: bool, n: nat, steps: seq<Step>, more: seq<Step>)
    ensures var s, t := Exec(Init(mode, eligible, n), steps), Exec(Exec(Init(mode, eligible, n), steps), more);
      s.owner.Idle? && s.ledger.claimed && !t.owner.Idle? && !t.owner.Checking? && !t.owner.Abandoning? ==>
        t.released == 1 && t.dispatched == 0
  {
    hide Next;
    var s := Exec(Init(mode, eligible, n), steps);
    RunKeepsInv(Init(mode, eligible, n), steps);
    RunKeepsInv(s, more);
    ClaimIsStable(s, more);
    if s.owner.Idle? && s.ledger.claimed {
      RefusingIsStable(s, more);
    }
  }

  // ---- claims that no canceller turns into a release ---------------------------------

  /** A scalar attempt with one canceller, nothing released or dispatched. */
  function Scene(owner: Owner, canceller: Canceller, need: bool, claimed: bool, inCall: bool, published: bool): State {
    State(Scalar, owner, [canceller], Ledger(true, true, true, claimed, need), inCall, published, 0, 0, false)
  }

  /** `t` is reachable from the start of a scalar attempt with one canceller. */
  ghost predicate Reachable(t: State) {
    exists steps :: Exec(Init(Scalar, true, 1), steps) == t
  }

  lemma Then(s: State, step: Step, t: State)
    requires Reachable(s) && Next(s, step) == t
    ensures Reachable(t)
  {
    var steps :| Exec(Init(Scalar, true, 1), steps) == s;
    assert (steps + [step])[..|steps|] == steps;
    assert Exec(Init(Scalar, true, 1), steps + [step]) == t;
  }

  lemma Beginning()
    ensures Reachable(Scene(Publishing, Outside, true, false, true, false))
  {
    var first := Init(Scalar, true, 1);
    assert first.cancellers == [Outside];
    assert Exec(first, []) == first;
    Then(first, BeginNeedData(true), Scene(Publishing, Outside, true, false, true, false));
  }

  lemma Opening(c: Canceller)
    requires Reachable(Scene(Publishing, c, true, false, true, false))
    ensures Reachable(Scene(Idle, c, true, false, false, true))
  {
    hide Reachable;
    Then(Scene(Publishing, c, true, false, true, false), Publish, Scene(Working(true), c, true, false, true, true));
    Then(Scene(Working(true), c, true, false, true, true), Work(MoreToAsk),
         Scene(Checking(false, true, false), c, true, false, true, true));
    Then(Scene(Checking(false, true, false), c, true, false, true, true), Check(false),
         Scene(Ending(true), c, true, false, true, true));
    Then(Scene(Ending(true), c, true, false, true, true), End, Scene(Returning(true), c, true, false, false, true));
    Then(Scene(Returning(true), c, true, false, false, true), Return, Scene(Idle, c, true, false, false, true));
  }

  /** A claim leaves a scalar attempt stranded: idle and claimed, the canceller finished, the input
      neither released nor dispatched, until the owner's next call. The canceller took its snapshot
      before the input was published. */
  lemma EarlySnapshotStrands()
    ensures Reachable(Scene(Idle, Finished, true, true, false, true))
  {
    hide Reachable;
    Beginning();
    Then(Scene(Publishing, Outside, true, false, true, false), Cancel(0),
         Scene(Publishing, Snapped(false), true, false, true, false));
    Opening(Snapped(false));
    Then(Scene(Idle, Snapped(false), true, false, false, true), Cancel(0),
         Scene(Idle, Claimed(false), true, true, false, true));
    Then(Scene(Idle, Claimed(false), true, true, false, true), Cancel(0),
         Scene(Idle, Finished, true, true, false, true));
  }

  /** The same state by another route, from an idle attempt that Beginning and Opening reach: the claim
      fell in a call that returned because nothing had been supplied. */
  lemma ClaimDuringEmptyCallStrands()
    requires Reachable(Scene(Idle, Outside, true, false, false, true))
    ensures Reachable(Scene(Idle, Finished, true, true, false, true))
  {
    hide Reachable;
    Then(Scene(Idle, Outside, true, false, false, true), Call, Scene(Checking(true, false, false), Outside, true, false, false, true));
    Then(Scene(Checking(true, false, false), Outside, true, false, false, true), Check(false),
         Scene(Working(false), Outside, true, false, true, true));
    Then(Scene(Working(false), Outside, true, false, true, true), Cancel(0),
         Scene(Working(false), Snapped(true), true, false, true, true));
    Then(Scene(Working(false), Snapped(true), true, false, true, true), Cancel(0),
         Scene(Working(false), Claimed(false), true, true, true, true));
    Then(Scene(Working(false), Claimed(false), true, true, true, true), Work(NothingSupplied),
         Scene(Returning(false), Claimed(false), true, true, false, true));
    Then(Scene(Returning(false), Claimed(false), true, true, false, true), Return,
         Scene(Idle, Claimed(false), true, true, false, true));
    Then(Scene(Idle, Claimed(false), true, true, false, true), Cancel(0), Scene(Idle, Finished, true, true, false, true));
  }
}
