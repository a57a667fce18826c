/** The trace storage gate: any number of threads trace, configure and shut down. Each step is one
    atomic operation or one mutex-protected block. */
module TraceGate {
  import opened Options

  const CLOSED: nat := 0x8000_0000   // the top bit of a 32-bit counter
  const WORD: nat := 0x1_0000_0000

  datatype Result = AlreadyStopped | Busy | Unused | Retired

  datatype Job = Active | Configure

  datatype Thread =
    | Outside
    | Loaded(observed: nat, job: Job)       // in the admission loop
    | Admitted(job: Job)
    | Waiting(job: Job)                     // has the storage, wants its mutex
    | Locked(job: Job)
    | Leaving
    | Reading                               // shutdown closed a gate without users
    | Locking
    | Checking
    | Deleting

  /** `tracer` identifies the installed sink, 0 for none. */
  datatype Storage = Unallocated | Allocated(mutex: Option<nat>, tracer: nat) | Deleted

  datatype State = State(
    uses: nat, storage: Storage, threads: seq<Thread>,
    refs: multiset<nat>,     // sinks held by callers outside the gate
    nextSink: nat, results: seq<Result>,
    replaced: set<nat>,      // the sinks that a later configuration took out
    retired: nat)            // the sink that shutdown released, 0 for none

  datatype Choice =
    | Enter(job: Job) | Shutdown | DropRef(sink: nat)
    | Proceed(fails: bool)   // fails: a spurious exchange failure, or an exception
    | Install(enabled: bool)

  predicate IsClosed(uses: nat) { uses >= CLOSED }

  function Init(threads: nat): State {
    State(0, Unallocated, seq(threads, _ => Outside), multiset{}, 1, [], {}, 0)
  }

  function At(s: State, i: nat, t: Thread): State
    requires i < |s.threads|
  {
    s.(threads := s.threads[i := t])
  }

  function Finish(s: State, i: nat, r: Result): State
    requires i < |s.threads|
  {
    At(s, i, Outside).(results := s.results + [r])
  }

  // ---- the steps ------------------------------------------------------------------

  /** One turn of the admission loop. */
  function Admission(s: State, i: nat, observed: nat, job: Job, spurious: bool): State
    requires i < |s.threads|
  {
    if IsClosed(observed) || observed == CLOSED - 1 then At(s, i, Outside)
    else if s.uses == observed && !spurious then At(s, i, Admitted(job)).(uses := observed + 1)
    else At(s, i, Loaded(s.uses, job))
  }

  /** shutdown's fetch_or and what it decides at once. */
  function Close(s: State, i: nat): State
    requires i < |s.threads|
  {
    if IsClosed(s.uses) then Finish(s, i, AlreadyStopped)
    else
      var closed := s.(uses := s.uses + CLOSED);
      if s.uses != 0 then Finish(closed, i, Busy) else At(closed, i, Reading)
  }

  /** The destructor's fetch_sub, which would wrap below zero. */
  function Leave(s: State, i: nat): State
    requires i < |s.threads|
  {
    At(s, i, Outside).(uses := (s.uses + WORD - 1) % WORD)
  }

  /** The first admitted caller allocates; a failed allocation leaves nothing behind. */
  function Acquire(s: State, i: nat, job: Job, fails: bool): State
    requires i < |s.threads|
  {
    if s.storage.Unallocated? && fails then At(s, i, Leaving)
    else At(s, i, Waiting(job)).(storage := if s.storage.Unallocated? then Allocated(None, 0) else s.storage)
  }

  /** install_locked: the sink in place is taken out, and a new one may take its place. */
  function Installed(s: State, enabled: bool): State
    requires s.storage.Allocated?
  {
    var gone := if s.storage.tracer == 0 then s.replaced else s.replaced + {s.storage.tracer};
    if enabled then s.(storage := s.storage.(tracer := s.nextSink), nextSink := s.nextSink + 1, replaced := gone)
    else s.(storage := s.storage.(tracer := 0), replaced := gone)
  }

  /** The block under the storage mutex: install or clear the sink, then hand out a reference. */
  function Work(s: State, i: nat, job: Job, choice: Choice): State
    requires i < |s.threads| && s.storage.Allocated?
  {
    var t := if choice.Install? then Installed(s, choice.enabled) else s;
    var u := if job.Active? && t.storage.tracer != 0 then t.(refs := t.refs + multiset{t.storage.tracer}) else t;
    At(u, i, Leaving).(storage := u.storage.(mutex := None))
  }

  /** shutdown's check of the sink under the mutex. */
  function Check(s: State, i: nat): State
    requires i < |s.threads| && s.storage.Allocated?
  {
    var unlocked := s.(storage := s.storage.(mutex := None));
    if s.storage.tracer != 0 && s.storage.tracer in s.refs then Finish(unlocked, i, Busy)
    else At(unlocked, i, Deleting).(storage := Allocated(None, 0), retired := s.storage.tracer)
  }

  /** The steps that use the storage object. */
  predicate Touches(t: Thread) {
    t.Waiting? || t.Locked? || t.Locking? || t.Checking? || t.Deleting?
  }

  /** One step of thread i; a step that is not enabled changes nothing. */
  function Next(s: State, i: nat, choice: Choice): State
    requires i < |s.threads|
  {
    var t := s.threads[i];
    if Touches(t) && !s.storage.Allocated? then s
    else match t
      case Outside =>
        (match choice
         case Enter(job) => At(s, i, Loaded(s.uses, job))
         case Shutdown => Close(s, i)
         case DropRef(sink) => s.(refs := s.refs - multiset{sink})
         case _ => s)
      case Loaded(observed, job) => Admission(s, i, observed, job, choice.Proceed? && choice.fails)
      case Admitted(job) => Acquire(s, i, job, choice.Proceed? && choice.fails)
      case Waiting(job) =>
        if s.storage.mutex.Some? then s else At(s, i, Locked(job)).(storage := s.storage.(mutex := Some(i)))
      case Locked(job) => Work(s, i, job, choice)
      case Leaving => Leave(s, i)
      case Reading => if s.storage.Allocated? then At(s, i, Locking) else Finish(s, i, Unused)
      case Locking =>
        if s.storage.mutex.Some? then Finish(s, i, Busy)
        else At(s, i, Checking).(storage := s.storage.(mutex := Some(i)))
      case Checking => Check(s, i)
      case Deleting => Finish(s, i, Retired).(storage := Deleted)
  }

  // ---- counting -------------------------------------------------------------------

  predicate Counted(t: Thread) { t.Admitted? || t.Waiting? || t.Locked? || t.Leaving? }

  predicate Stopping(t: Thread) { t.Reading? || t.Locking? || t.Checking? || t.Deleting? }

  function Users(ts: seq<Thread>): nat {
    if ts == [] then 0 else Users(ts[1..]) + if Counted(ts[0]) then 1 else 0
  }

  function Stoppers(ts: seq<Thread>): nat {
    if ts == [] then 0 else Stoppers(ts[1..]) + if Stopping(ts[0]) then 1 else 0
  }

  /** The shutdowns that returned something other than AlreadyStopped. */
  function Firsts(rs: seq<Result>): nat {
    if rs == [] then 0 else Firsts(rs[..|rs| - 1]) + if rs[|rs| - 1].AlreadyStopped? then 0 else 1
  }

  lemma {:induction false} UsersAfter(ts: seq<Thread>, i: nat, t: Thread)
    requires i < |ts|
    ensures Users(ts[i := t]) == Users(ts) - (if Counted(ts[i]) then 1 else 0) + (if Counted(t) then 1 else 0)
    ensures Counted(ts[i]) ==> Users(ts) > 0
  {
    if i == 0 {
      assert ts[i := t][1..] == ts[1..];
    } else {
      assert ts[i := t][1..] == ts[1..][i - 1 := t];
      UsersAfter(ts[1..], i - 1, t);
    }
  }

  lemma {:induction false} StoppersAfter(ts: seq<Thread>, i: nat, t: Thread)
    requires i < |ts|
    ensures Stoppers(ts[i := t]) == Stoppers(ts) - (if Stopping(ts[i]) then 1 else 0) + (if Stopping(t) then 1 else 0)
    ensures Stopping(ts[i]) ==> Stoppers(ts) > 0
  {
    if i == 0 {
      assert ts[i := t][1..] == ts[1..];
    } else {
      assert ts[i := t][1..] == ts[1..][i - 1 := t];
      StoppersAfter(ts[1..], i - 1, t);
    }
  }

  lemma FirstsAfter(rs: seq<Result>, r: Result)
    ensures Firsts(rs + [r]) == Firsts(rs) + if r.AlreadyStopped? then 0 else 1
  {
    assert (rs + [r])[..|rs|] == rs;
  }

  lemma {:induction false} NoUsers(ts: seq<Thread>, j: nat)
    requires Users(ts) == 0 && j < |ts|
    ensures !Counted(ts[j])
  {
    UsersAfter(ts, j, ts[j]);
  }

  lemma {:induction false} NoStoppers(ts: seq<Thread>, j: nat)
    requires Stoppers(ts) == 0 && j < |ts|
    ensures !Stopping(ts[j])
  {
    StoppersAfter(ts, j, ts[j]);
  }

  // ---- the invariant --------------------------------------------------------------

  /** The counter is the number of admitted users, plus the closed bit; shutdown's slow path is
      entered at most once, and only without users. */
  predicate Gate(uses: nat, users: nat, stoppers: nat, firsts: nat) {
    && users < CLOSED
    && uses == users + (if IsClosed(uses) then CLOSED else 0)
    && stoppers + firsts == (if IsClosed(uses) then 1 else 0)
    && (stoppers > 0 ==> users == 0)
  }

  predicate ThreadOk(t: Thread, i: nat, storage: Storage) {
    && (Touches(t) ==> storage.Allocated?)
    && (t.Locked? || t.Checking? <==> storage.Allocated? && storage.mutex == Some(i))
    && (t.Deleting? ==> storage.tracer == 0)
  }

  /** Callers hold only the installed sink and sinks that were taken out before. */
  ghost predicate SinksOk(s: State) {
    && s.nextSink > 0
    && (s.storage.Allocated? ==> s.storage.tracer < s.nextSink && s.storage.tracer !in s.replaced)
    && (forall t | t in s.replaced :: 0 < t < s.nextSink)
    && (forall t | t in s.refs :: t in s.replaced || (s.storage.Allocated? && t == s.storage.tracer != 0))
    && (s.retired != 0 ==> IsClosed(s.uses) && Users(s.threads) == 0 && s.retired !in s.refs && s.retired !in s.replaced)
  }

  ghost predicate Inv(s: State) {
    && Gate(s.uses, Users(s.threads), Stoppers(s.threads), Firsts(s.results))
    && (forall i :: 0 <= i < |s.threads| ==> ThreadOk(s.threads[i], i, s.storage))
    && (s.storage.Allocated? && s.storage.mutex.Some? ==> s.storage.mutex.value < |s.threads|)
    && (s.storage.Deleted? ==> IsClosed(s.uses) && Users(s.threads) == 0 && Stoppers(s.threads) == 0)
    && SinksOk(s)
  }

  /** A step of thread i that leaves the storage alone. */
  lemma PlainStep(s: State, i: nat, t: Thread, uses: nat)
    requires Inv(s) && i < |s.threads| && ThreadOk(t, i, s.storage) && Stopping(s.threads[i]) == Stopping(t)
    requires
      || (Counted(s.threads[i]) == Counted(t) && uses == s.uses)
      || (!Counted(s.threads[i]) && Counted(t) && !IsClosed(s.uses) && uses == s.uses + 1 < CLOSED)
      || (Counted(s.threads[i]) && !Counted(t) && uses == s.uses - 1)
    ensures Inv(At(s, i, t).(uses := uses))
  {
    UsersAfter(s.threads, i, t);
    StoppersAfter(s.threads, i, t);
  }

  lemma CloseKeepsInv(s: State, i: nat)
    requires Inv(s) && i < |s.threads| && s.threads[i].Outside?
    ensures Inv(Close(s, i))
  {
    UsersAfter(s.threads, i, Outside);
    StoppersAfter(s.threads, i, Outside);
    UsersAfter(s.threads, i, Reading);
    StoppersAfter(s.threads, i, Reading);
    FirstsAfter(s.results, AlreadyStopped);
    FirstsAfter(s.results, Busy);
  }

  lemma AdmissionKeepsInv(s: State, i: nat, spurious: bool)
    requires Inv(s) && i < |s.threads| && s.threads[i].Loaded?
    ensures Inv(Admission(s, i, s.threads[i].observed, s.threads[i].job, spurious))
  {
    hide Inv;
    var observed, job := s.threads[i].observed, s.threads[i].job;
    assert ThreadOk(s.threads[i], i, s.storage) by { Unfold(s, i); }
    if IsClosed(observed) || observed == CLOSED - 1 { PlainStep(s, i, Outside, s.uses); }
    else if s.uses == observed && !spurious { PlainStep(s, i, Admitted(job), s.uses + 1); }
    else { PlainStep(s, i, Loaded(s.uses, job), s.uses); }
  }

  lemma Unfold(s: State, i: nat)
    requires Inv(s) && i < |s.threads|
    ensures ThreadOk(s.threads[i], i, s.storage)
    ensures s.uses < WORD && (Counted(s.threads[i]) ==> s.uses > 0)
  {
    UsersAfter(s.threads, i, s.threads[i]);
  }

  /** A counted thread means the storage is still there, whoever has closed the gate. */
  lemma AcquireKeepsInv(s: State, i: nat, fails: bool)
    requires Inv(s) && i < |s.threads| && s.threads[i].Admitted?
    ensures Inv(Acquire(s, i, s.threads[i].job, fails))
  {
    UsersAfter(s.threads, i, Leaving);
    StoppersAfter(s.threads, i, Leaving);
    UsersAfter(s.threads, i, Waiting(s.threads[i].job));
    StoppersAfter(s.threads, i, Waiting(s.threads[i].job));
  }

  lemma LockKeepsInv(s: State, i: nat, t: Thread)
    requires Inv(s) && i < |s.threads| && s.storage.Allocated? && s.storage.mutex.None?
    requires (s.threads[i].Waiting? && t.Locked?) || (s.threads[i].Locking? && t.Checking?)
    ensures Inv(At(s, i, t).(storage := s.storage.(mutex := Some(i))))
  {
    UsersAfter(s.threads, i, t);
    StoppersAfter(s.threads, i, t);
  }

  lemma WorkKeepsSinks(s: State, i: nat, job: Job, choice: Choice)
    requires SinksOk(s) && s.retired == 0 && i < |s.threads| && s.storage.Allocated?
    ensures SinksOk(Work(s, i, job, choice))
  {
  }

  lemma WorkKeepsInv(s: State, i: nat, choice: Choice)
    requires Inv(s) && i < |s.threads| && s.threads[i].Locked?
    ensures ThreadOk(s.threads[i], i, s.storage) && Inv(Work(s, i, s.threads[i].job, choice))
  {
    UsersAfter(s.threads, i, Leaving);
    StoppersAfter(s.threads, i, Leaving);
    assert ThreadOk(s.threads[i], i, s.storage);
    WorkKeepsSinks(s, i, s.threads[i].job, choice);
    hide SinksOk;
    var t := Work(s, i, s.threads[i].job, choice);
    forall j | 0 <= j < |t.threads| ensures ThreadOk(t.threads[j], j, t.storage) {
      NoStoppers(s.threads, j);
    }
  }

  lemma CheckKeepsInv(s: State, i: nat)
    requires Inv(s) && i < |s.threads| && s.threads[i].Checking?
    ensures ThreadOk(s.threads[i], i, s.storage) && Inv(Check(s, i))
  {
    UsersAfter(s.threads, i, Outside);
    StoppersAfter(s.threads, i, Outside);
    UsersAfter(s.threads, i, Deleting);
    StoppersAfter(s.threads, i, Deleting);
    FirstsAfter(s.results, Busy);
  }

  lemma StopKeepsInv(s: State, i: nat, r: Result)
    requires Inv(s) && i < |s.threads| && (s.threads[i].Reading? || s.threads[i].Locking?) && !r.AlreadyStopped?
    ensures Inv(Finish(s, i, r))
  {
    UsersAfter(s.threads, i, Outside);
    StoppersAfter(s.threads, i, Outside);
    FirstsAfter(s.results, r);
  }

  lemma DeleteKeepsInv(s: State, i: nat)
    requires Inv(s) && i < |s.threads| && s.threads[i].Deleting?
    ensures Inv(Finish(s, i, Retired).(storage := Deleted))
  {
    var t := Finish(s, i, Retired).(storage := Deleted);
    UsersAfter(s.threads, i, Outside);
    StoppersAfter(s.threads, i, Outside);
    FirstsAfter(s.results, Retired);
    forall j | 0 <= j < |t.threads| ensures ThreadOk(t.threads[j], j, t.storage) {
      NoUsers(t.threads, j);
      NoStoppers(t.threads, j);
    }
  }

  lemma NextKeepsInv(s: State, i: nat, choice: Choice)
    requires Inv(s) && i < |s.threads|
    ensures Inv(Next(s, i, choice))
  {
    hide Inv, Close, Admission, Acquire, Work, Check, Leave;
    Unfold(s, i);
    match s.threads[i]
    case Outside =>
      if choice.Enter? { PlainStep(s, i, Loaded(s.uses, choice.job), s.uses); }
      else if choice.Shutdown? { CloseKeepsInv(s, i); }
      else if choice.DropRef? { DropKeepsInv(s, choice.sink); }
    case Loaded(_, _) => AdmissionKeepsInv(s, i, choice.Proceed? && choice.fails);
    case Admitted(_) => AcquireKeepsInv(s, i, choice.Proceed? && choice.fails);
    case Waiting(job) => if s.storage.mutex.None? { LockKeepsInv(s, i, Locked(job)); }
    case Locked(_) => WorkKeepsInv(s, i, choice);
    case Leaving => LeaveKeepsInv(s, i);
    case Reading =>
      if s.storage.Allocated? { PlainStep(s, i, Locking, s.uses); } else { StopKeepsInv(s, i, Unused); }
    case Locking =>
      if s.storage.mutex.None? { LockKeepsInv(s, i, Checking); } else { StopKeepsInv(s, i, Busy); }
    case Checking => CheckKeepsInv(s, i);
    case Deleting => DeleteKeepsInv(s, i);
  }

  lemma DropKeepsInv(s: State, sink: nat)
    requires Inv(s)
    ensures Inv(s.(refs := s.refs - multiset{sink}))
  {
  }

  lemma LeaveKeepsInv(s: State, i: nat)
    requires Inv(s) && i < |s.threads| && s.threads[i].Leaving?
    ensures Inv(Leave(s, i))
  {
    Unfold(s, i);
    assert (s.uses + WORD - 1) % WORD == s.uses - 1;
    PlainStep(s, i, Outside, s.uses - 1);
  }

  // ---- every run ------------------------------------------------------------------

  datatype Move = Move(thread: nat, choice: Choice)

  function Exec(s: State, moves: seq<Move>): (t: State)
    ensures |t.threads| == |s.threads|
    decreases |moves|
  {
    if moves == [] then s
    else
      var mid, m := Exec(s, moves[..|moves| - 1]), moves[|moves| - 1];
      if m.thread < |mid.threads| then Next(mid, m.thread, m.choice) else mid
  }

  lemma {:induction false} RunKeepsInv(s: State, moves: seq<Move>)
    requires Inv(s)
    ensures Inv(Exec(s, moves))
    decreases |moves|
  {
    hide Inv, Next;
    if moves != [] {
      RunKeepsInv(s, moves[..|moves| - 1]);
      var mid, m := Exec(s, moves[..|moves| - 1]), moves[|moves| - 1];
      if m.thread < |mid.threads| { NextKeepsInv(mid, m.thread, m.choice); }
    }
  }

  lemma {:induction false} InitCounts(n: nat)
    ensures var ts := Init(n).threads; Users(ts) == 0 && Stoppers(ts) == 0
  {
    if n > 0 {
      InitCounts(n - 1);
      assert Init(n).threads[1..] == Init(n - 1).threads;
    }
  }

  /** In every reachable state: the low bits count the admitted users and never reach the closed bit;
      no thread that uses the storage finds it deleted; storage is deleted only once the gate is closed
      without users, and then every sink still held was taken out by a configuration before; nobody
      holds the sink that shutdown released; at most one shutdown did anything. */
  lemma GateIsSafe(n: nat, moves: seq<Move>)
    ensures var s := Exec(Init(n), moves);
      && s.uses % CLOSED == Users(s.threads) && s.uses < WORD
      && (forall i :: 0 <= i < |s.threads| && Touches(s.threads[i]) ==> s.storage.Allocated?)
      && (s.storage.Deleted? ==> IsClosed(s.uses) && Users(s.threads) == 0 && forall t | t in s.refs :: t in s.replaced)
      && (s.retired != 0 ==> s.retired !in s.refs)
      && Firsts(s.results) <= 1
  {
    hide Next;
    InitCounts(n);
    RunKeepsInv(Init(n), moves);
  }

  /** A shutdown that reaches its check goes on to delete the storage exactly when every sink still
      held was replaced or cleared by an earlier configuration. */
  lemma DeletesIffAllReplaced(n: nat, moves: seq<Move>, i: nat)
    requires i < n && Exec(Init(n), moves).threads[i].Checking?
    ensures var s := Exec(Init(n), moves);
      && s.storage.Allocated?
      && (Check(s, i).threads[i].Deleting? <==> forall t | t in s.refs :: t in s.replaced)
  {
    hide Next;
    var s := Exec(Init(n), moves);
    InitCounts(n);
    RunKeepsInv(Init(n), moves);
    assert ThreadOk(s.threads[i], i, s.storage);
  }

  // ---- a snapshot that outlives the storage -----------------------------------------

  /** `t` is reachable with one thread. */
  ghost predicate Reachable(t: State) { exists moves :: Exec(Init(1), moves) == t }

  lemma Then(s: State, choice: Choice, t: State)
    requires Reachable(s) && |s.threads| == 1 && Next(s, 0, choice) == t
    ensures Reachable(t)
  {
    var moves :| Exec(Init(1), moves) == s;
    assert (moves + [Move(0, choice)])[..|moves|] == moves;
    assert Exec(Init(1), moves + [Move(0, choice)]) == t;
  }

  /** The only thread, between calls. */
  function Alone(storage: Storage, refs: multiset<nat>, nextSink: nat, replaced: set<nat>): State {
    State(0, storage, [Outside], refs, nextSink, [], replaced, 0)
  }

  /** A call enters the gate, takes the mutex and leaves again. */
  lemma Visit(s: State, job: Job, choice: Choice)
    requires Reachable(s) && s.uses == 0 && s.threads == [Outside] && !s.storage.Deleted?
    requires s.storage.Allocated? ==> s.storage.mutex.None?
    ensures var inside := s.(uses := 1, threads := [Locked(job)], storage := Allocated(Some(0), if s.storage.Allocated? then s.storage.tracer else 0));
      Reachable(Work(inside, 0, job, choice).(uses := 0, threads := [Outside]))
  {
    hide Reachable;
    var storage := if s.storage.Allocated? then s.storage else Allocated(None, 0);
    Then(s, Enter(job), s.(threads := [Loaded(0, job)]));
    Then(s.(threads := [Loaded(0, job)]), Proceed(false), s.(threads := [Admitted(job)], uses := 1));
    var waiting := s.(threads := [Waiting(job)], uses := 1, storage := storage);
    Then(s.(threads := [Admitted(job)], uses := 1), Proceed(false), waiting);
    var inside := waiting.(threads := [Locked(job)], storage := storage.(mutex := Some(0)));
    Then(waiting, Proceed(false), inside);
    var worked := Work(inside, 0, job, choice);
    Then(inside, choice, worked);
    assert (1 + WORD - 1) % WORD == 0;
    Then(worked, Proceed(false), worked.(uses := 0, threads := [Outside]));
  }

  /** A shutdown that finds the gate empty and the installed sink unheld. */
  lemma Stop(s: State)
    requires Reachable(s) && s.uses == 0 && s.threads == [Outside] && s.storage.Allocated? && s.storage.mutex.None?
    requires s.storage.tracer !in s.refs && s.results == []
    ensures Reachable(s.(uses := CLOSED, storage := Deleted, results := [Retired], retired := s.storage.tracer))
  {
    hide Reachable;
    var closed := s.(uses := CLOSED);
    Then(s, Shutdown, closed.(threads := [Reading]));
    Then(closed.(threads := [Reading]), Proceed(false), closed.(threads := [Locking]));
    var checking := closed.(threads := [Checking], storage := s.storage.(mutex := Some(0)));
    Then(closed.(threads := [Locking]), Proceed(false), checking);
    var deleting := closed.(threads := [Deleting], storage := Allocated(None, 0), retired := s.storage.tracer);
    Then(checking, Proceed(false), deleting);
    Then(deleting, Proceed(false), s.(uses := CLOSED, storage := Deleted, results := [Retired], retired := s.storage.tracer));
  }

  /** One caller keeps sink 1, a configuration installs sink 2, and shutdown deletes the storage and
      reports Retired while sink 1 is still held. */
  lemma SnapshotOutlivesStorage()
    ensures exists s :: Reachable(s) && s.storage.Deleted? && s.results == [Retired] && s.refs == multiset{1}
  {
    hide Reachable;
    var first := Alone(Unallocated, multiset{}, 1, {});
    assert Reachable(first) by {
      assert Init(1).threads == [Outside];
      assert Exec(Init(1), []) == first;
      StartIsReachable();
    }
    Visit(first, Active, Install(true));
    var second := Alone(Allocated(None, 1), multiset{1}, 2, {});
    assert multiset{} + multiset{1} == multiset{1};
    assert Reachable(second);
    Visit(second, Configure, Install(true));
    var third := Alone(Allocated(None, 2), multiset{1}, 3, {1});
    assert {} + {1} == {1};
    assert Reachable(third);
    Stop(third);
  }

  lemma StartIsReachable()
    ensures Reachable(Init(1))
  {
    assert Exec(Init(1), []) == Init(1);
  }

  /** shutdown's attempt on the storage mutex never fails: the gate had no users. */
  lemma TryLockSucceeds(n: nat, moves: seq<Move>, i: nat)
    requires i < n && Exec(Init(n), moves).threads[i].Locking?
    ensures Exec(Init(n), moves).storage.Allocated? && Exec(Init(n), moves).storage.mutex.None?
  {
    hide Next;
    var s := Exec(Init(n), moves);
    InitCounts(n);
    RunKeepsInv(Init(n), moves);
    assert ThreadOk(s.threads[i], i, s.storage);
    StoppersAfter(s.threads, i, Outside);
    if s.storage.mutex.Some? {
      var j := s.storage.mutex.value;
      assert ThreadOk(s.threads[j], j, s.storage);
      NoUsers(s.threads, j);
      NoStoppers(s.threads[i := Outside], j);
    }
  }
}
