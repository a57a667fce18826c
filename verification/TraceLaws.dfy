/** What a caller of the trace storage gate can rely on: when it is admitted, and what a shutdown answers,
    whatever the other threads do meanwhile. */
module TraceLaws {
  import opened Options
  import opened TraceGate

  ghost predicate From(s: State) { exists n, moves :: Exec(Init(n), moves) == s }

  lemma FromIsInv(s: State)
    requires From(s)
    ensures Inv(s)
  {
    var n, moves :| Exec(Init(n), moves) == s;
    InitCounts(n);
    RunKeepsInv(Init(n), moves);
  }

  // ---- admission --------------------------------------------------------------------

  /** A caller that meets no interference is admitted exactly when the gate is open and the count has room
      below the closed bit; otherwise nothing changes. */
  lemma AdmittedIff(s: State, i: nat, job: Job)
    requires From(s) && i < |s.threads| && s.threads[i].Outside?
    ensures var t := Next(Next(s, i, Enter(job)), i, Proceed(false));
      if s.uses < 0x8000_0000 && Users(s.threads) < 0x7FFF_FFFF
      then t == s.(threads := s.threads[i := Admitted(job)], uses := Users(s.threads) + 1)
      else t == s
  {
    FromIsInv(s);
    var loading := Next(s, i, Enter(job));
    assert loading.threads[i := Admitted(job)] == s.threads[i := Admitted(job)];
    assert loading.threads[i := Outside] == s.threads;
  }

  /** A turn of the admission loop admits exactly when the counter still has the value read, and gives up
      exactly when that value was closed or full. */
  lemma TurnIff(s: State, i: nat, fails: bool)
    requires i < |s.threads| && s.threads[i].Loaded?
    ensures var t, read := Next(s, i, Proceed(fails)).threads[i], s.threads[i].observed;
      && (t.Admitted? <==> !fails && read == s.uses && read < 0x7FFF_FFFF)
      && (t.Outside? <==> read >= 0x7FFF_FFFF)
      && (t.Loaded? <==> read < 0x7FFF_FFFF && (fails || read != s.uses))
  {
  }

  lemma LeavingIsCounted(s: State, i: nat)
    requires Inv(s) && i < |s.threads| && s.threads[i].Leaving? && s.uses >= 0x8000_0000
    ensures 0x8000_0000 < s.uses < WORD
  {
    UsersAfter(s.threads, i, Outside);
  }

  lemma ClosedStep(s: State, i: nat, choice: Choice)
    requires Inv(s) && i < |s.threads| && s.uses >= 0x8000_0000
    ensures 0x8000_0000 <= Next(s, i, choice).uses <= s.uses
  {
    if s.threads[i].Leaving? {
      LeavingIsCounted(s, i);
      assert (s.uses + WORD - 1) % WORD == s.uses - 1;
    }
    hide Inv;
  }

  /** Behind a closed gate the users only become fewer, and it never opens again. */
  lemma {:induction false} ClosedAdmitsNobody(s: State, moves: seq<Move>)
    requires From(s) && s.uses >= 0x8000_0000
    ensures var t := Exec(s, moves);
      0x8000_0000 <= t.uses <= s.uses && Users(t.threads) <= Users(s.threads)
    decreases |moves|
  {
    hide Next;
    FromIsInv(s);
    RunKeepsInv(s, moves);
    if moves != [] {
      var mid, m := Exec(s, moves[..|moves| - 1]), moves[|moves| - 1];
      ClosedAdmitsNobody(s, moves[..|moves| - 1]);
      RunKeepsInv(s, moves[..|moves| - 1]);
      if m.thread < |mid.threads| { ClosedStep(mid, m.thread, m.choice); }
    }
  }

  // ---- shutdown ---------------------------------------------------------------------

  /** The answer of the one shutdown that found the gate open. */
  function Answer(rs: seq<Result>): Option<Result> {
    if rs == [] then None
    else if rs[|rs| - 1].AlreadyStopped? then Answer(rs[..|rs| - 1])
    else Some(rs[|rs| - 1])
  }

  lemma AnswerAfter(rs: seq<Result>, r: Result)
    ensures Answer(rs + [r]) == if r.AlreadyStopped? then Answer(rs) else Some(r)
  {
    assert (rs + [r])[..|rs|] == rs;
  }

  lemma {:induction false} AnswerIsFirst(rs: seq<Result>)
    ensures Answer(rs).Some? <==> Firsts(rs) > 0
    decreases |rs|
  {
    if rs != [] { AnswerIsFirst(rs[..|rs| - 1]); }
  }

  function StepsLeft(t: Thread): nat {
    match t
    case Reading => 4
    case Locking => 3
    case Checking => 2
    case Deleting => 1
    case _ => 0
  }

  function OwnSteps(moves: seq<Move>, i: nat): nat
    decreases |moves|
  {
    if moves == [] then 0
    else OwnSteps(moves[..|moves| - 1], i) + if moves[|moves| - 1].thread == i then 1 else 0
  }

  /** An answer that fits what the shutdown found: the storage at its call, and the sinks held at its call
      and now. */
  predicate Fits(found: Storage, held: multiset<nat>, now: multiset<nat>, r: Result) {
    match r
    case AlreadyStopped => false
    case Unused => found.Unallocated?
    case Busy => found.Allocated? && found.tracer in held
    case Retired => found.Allocated? && found.tracer !in now
  }

  predicate Decided(found: Storage, held: multiset<nat>, storage: Storage, now: multiset<nat>,
                    t: Thread, answer: Option<Result>) {
    match t
    case Reading => answer.None? && storage == found
    case Locking => answer.None? && storage == found && found.Allocated? && found.mutex.None?
    case Checking => answer.None? && found.Allocated? && storage.Allocated? && storage.tracer == found.tracer
    case Deleting => answer.None? && found.Allocated? && found.tracer !in now
    case _ =>
      answer.Some? && Fits(found, held, now, answer.value) && (answer.value.Retired? <==> storage.Deleted?)
  }

  /** Thread i closed an empty gate in s and has taken `steps` steps of its own since. */
  ghost predicate Stopped(s: State, i: nat, t: State, steps: nat) {
    && |t.threads| == |s.threads| && i < |s.threads| && Inv(t) && t.uses == 0x8000_0000
    && !s.storage.Deleted? && (s.storage.Allocated? ==> s.storage.mutex.None?)
    && t.refs <= s.refs
    && Decided(s.storage, s.refs, t.storage, t.refs, t.threads[i], Answer(t.results))
    && (StepsLeft(t.threads[i]) + steps <= 4 || StepsLeft(t.threads[i]) == 0)
  }

  predicate Idle(t: Thread) { t.Outside? || t.Loaded? }

  lemma OthersAreIdle(s: State, i: nat, t: State, steps: nat, j: nat)
    requires Stopped(s, i, t, steps) && j < |t.threads| && (j != i || !Stopping(t.threads[i]))
    ensures Idle(t.threads[j])
  {
    NoUsers(t.threads, j);
    AnswerIsFirst(t.results);
    if Stopping(t.threads[i]) {
      StoppersAfter(t.threads, i, Outside);
      NoStoppers(t.threads[i := Outside], j);
    } else {
      NoStoppers(t.threads, j);
    }
  }

  predicate OnlyIdled(t: State, j: nat, u: State)
    requires j < |t.threads|
  {
    && |u.threads| == |t.threads| && u.threads == t.threads[j := u.threads[j]] && Idle(u.threads[j])
    && u.uses == t.uses && u.storage == t.storage && u.refs <= t.refs
    && (u.results == t.results || u.results == t.results + [AlreadyStopped])
  }

  lemma IdleStep(t: State, j: nat, choice: Choice)
    requires j < |t.threads| && Idle(t.threads[j]) && t.uses == 0x8000_0000
    ensures OnlyIdled(t, j, Next(t, j, choice))
  {
    assert t.threads == t.threads[j := t.threads[j]];
  }

  lemma IdleKeepsStopped(s: State, i: nat, t: State, steps: nat, j: nat, choice: Choice)
    requires Stopped(s, i, t, steps) && j < |t.threads| && Idle(t.threads[j])
    ensures Stopped(s, i, Next(t, j, choice), steps + if j == i then 1 else 0)
  {
    hide Next, Inv;
    var u := Next(t, j, choice);
    IdleStep(t, j, choice);
    NextKeepsInv(t, j, choice);
    AnswerAfter(t.results, AlreadyStopped);
    assert j != i ==> u.threads[i] == t.threads[i];
  }

  lemma OwnDecides(found: Storage, held: multiset<nat>, t: State, i: nat, choice: Choice)
    requires i < |t.threads| && Stopping(t.threads[i]) && t.refs <= held && 0 !in t.refs && !found.Deleted?
    requires found.Allocated? ==> found.mutex.None?
    requires Touches(t.threads[i]) ==> t.storage.Allocated?
    requires Decided(found, held, t.storage, t.refs, t.threads[i], Answer(t.results))
    ensures var u := Next(t, i, choice);
      && |u.threads| == |t.threads| && u.uses == t.uses && u.refs == t.refs
      && Decided(found, held, u.storage, u.refs, u.threads[i], Answer(u.results))
      && StepsLeft(u.threads[i]) < StepsLeft(t.threads[i])
  {
    AnswerAfter(t.results, Unused);
    AnswerAfter(t.results, Busy);
    AnswerAfter(t.results, Retired);
    hide Answer;
  }

  lemma HeldSinksAreReal(t: State)
    requires Inv(t)
    ensures 0 !in t.refs
  {
  }

  lemma OwnStep(s: State, i: nat, t: State, steps: nat, choice: Choice)
    requires Stopped(s, i, t, steps) && Stopping(t.threads[i])
    ensures Stopped(s, i, Next(t, i, choice), steps + 1)
  {
    hide Next, Inv, Decided, Answer;
    NextKeepsInv(t, i, choice);
    Unfold(t, i);
    HeldSinksAreReal(t);
    OwnDecides(s.storage, s.refs, t, i, choice);
  }

  lemma {:induction false} StaysStopped(s: State, i: nat, t: State, moves: seq<Move>)
    requires Stopped(s, i, t, 0)
    ensures Stopped(s, i, Exec(t, moves), OwnSteps(moves, i))
    decreases |moves|
  {
    hide Next, Stopped;
    if moves != [] {
      var before, m := moves[..|moves| - 1], moves[|moves| - 1];
      StaysStopped(s, i, t, before);
      var mid := Exec(t, before);
      StoppedIndex(s, i, mid, OwnSteps(before, i));
      if m.thread < |mid.threads| {
        if m.thread == i && Stopping(mid.threads[i]) {
          OwnStep(s, i, mid, OwnSteps(before, i), m.choice);
        } else {
          OthersAreIdle(s, i, mid, OwnSteps(before, i), m.thread);
          IdleKeepsStopped(s, i, mid, OwnSteps(before, i), m.thread, m.choice);
        }
      }
    }
  }

  lemma StoppedIndex(s: State, i: nat, t: State, steps: nat)
    requires Stopped(s, i, t, steps)
    ensures i < |t.threads|
  {
  }

  lemma NobodyLocks(s: State)
    requires Inv(s) && s.uses == 0
    ensures s.storage.Allocated? ==> s.storage.mutex.None?
  {
    if s.storage.Allocated? && s.storage.mutex.Some? {
      var j := s.storage.mutex.value;
      assert ThreadOk(s.threads[j], j, s.storage);
      NoUsers(s.threads, j);
      NoStoppers(s.threads, j);
    }
  }

  lemma StartsStopped(s: State, i: nat)
    requires Inv(s) && i < |s.threads| && s.threads[i].Outside? && s.uses == 0
    ensures Stopped(s, i, Next(s, i, Shutdown), 0)
  {
    NextKeepsInv(s, i, Shutdown);
    NobodyLocks(s);
    AnswerIsFirst(s.results);
    hide Inv;
  }

  /** A shutdown answers at once when the gate is closed already or has users. */
  lemma AnswersAtOnce(s: State, i: nat)
    requires From(s) && i < |s.threads| && s.threads[i].Outside?
    ensures var t := Next(s, i, Shutdown);
      && t.uses >= 0x8000_0000
      && (s.uses >= 0x8000_0000 ==> t == s.(results := s.results + [AlreadyStopped]))
      && (s.uses < 0x8000_0000 && Users(s.threads) > 0 ==> t.results == s.results + [Busy] && t.threads == s.threads)
      && (s.uses < 0x8000_0000 && Users(s.threads) == 0 ==> t.results == s.results && t.threads[i].Reading?)
  {
    FromIsInv(s);
    assert s.threads[i := Outside] == s.threads;
  }

  /** A shutdown that closes an empty gate returns within four steps of its own, whatever the others do, and
      its answer is Unused exactly when the storage was never allocated, Retired exactly when it deleted the
      storage, Busy when the installed sink is held all the while, and Retired when it was not held at the
      call. */
  lemma ShutdownAnswers(s: State, i: nat, moves: seq<Move>)
    requires From(s) && i < |s.threads| && s.threads[i].Outside? && s.uses == 0
    ensures var t := Exec(Next(s, i, Shutdown), moves);
      && (OwnSteps(moves, i) >= 4 ==> !Stopping(t.threads[i]))
      && (Stopping(t.threads[i]) <==> Answer(t.results).None?)
      && (Answer(t.results).Some? ==>
            var r := Answer(t.results).value;
            && (r.Unused? <==> s.storage.Unallocated?)
            && (r.Retired? <==> t.storage.Deleted?)
            && (s.storage.Allocated? && s.storage.tracer in t.refs ==> r.Busy?)
            && (s.storage.Allocated? && s.storage.tracer !in s.refs ==> r.Retired?))
  {
    hide Next, Exec;
    FromIsInv(s);
    StartsStopped(s, i);
    StaysStopped(s, i, Next(s, i, Shutdown), moves);
  }
}
