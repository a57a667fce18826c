/** Threads that take leases, and the discipline under which no set of them can wait in a circle. */
module LockOrder {
  import opened HandleForest
  import opened HandleLifecycle
  import opened LockLeases

  /** The recursive mutex of one object: whether it is an environment, and its address. */
  datatype Lock = Lock(env: bool, address: nat)

  /** Environments rank before everything else; otherwise addresses decide. */
  predicate Below(a: Lock, b: Lock) {
    if a.env == b.env then a.address < b.address else a.env
  }

  predicate Ranked(lease: seq<Lock>) { forall i, j :: 0 <= i < j < |lease| ==> Below(lease[i], lease[j]) }

  function Locks(m: Registry, lease: seq<Handle>): seq<Lock> {
    seq(|lease|, i requires 0 <= i < |lease| => Lock(IsEnvironment(m, lease[i]), lease[i]))
  }

  /** Ascending addresses respect the ranks exactly when no environment follows another handle. */
  lemma RankedIff(m: Registry, lease: seq<Handle>)
    requires Ascending(lease)
    ensures Ranked(Locks(m, lease)) <==>
      forall i, j :: 0 <= i < j < |lease| && IsEnvironment(m, lease[j]) ==> IsEnvironment(m, lease[i])
  {
    var locks := Locks(m, lease);
    if Ranked(locks) {
      forall i, j | 0 <= i < j < |lease| && IsEnvironment(m, lease[j]) ensures IsEnvironment(m, lease[i]) {
        assert Below(locks[i], locks[j]);
      }
    }
  }

  /** A lease on handles that are not environments, or on one environment alone, is ranked. */
  lemma LeasesAreRanked(m: Registry, hs: seq<Handle>, lease: seq<Handle>)
    requires Forest(m) && Ascending(lease) && Elements(lease) == Chains(m, hs)
    requires |hs| == 1 || forall i :: 0 <= i < |hs| ==> !IsEnvironment(m, hs[i])
    ensures Ranked(Locks(m, lease))
  {
    forall i, j | 0 <= i < j < |lease| && IsEnvironment(m, lease[j]) ensures IsEnvironment(m, lease[i]) {
      assert lease[j] in Elements(lease) && lease[i] in Elements(lease);
      LeaseEnvironments(m, hs, lease[j]);
      assert hs[..0] == [];
      assert Chains(m, hs[..0]) == {};
    }
    RankedIff(m, lease);
  }

  predicate IsConnection(m: Registry, h: Handle) { h in m && m[h].body.Connection? }

  // ---- threads --------------------------------------------------------------------

  /** Locks held, and those still to be taken for the current lease. */
  datatype Thread = Thread(held: set<Lock>, todo: seq<Lock>)

  type State = seq<Thread>

  datatype Move =
    | Request(i: nat, lease: seq<Lock>)      // a call starts; it may be nested in another
    | Acquire(i: nat)
    | Release(i: nat, kept: set<Lock>)       // a call ends

  predicate Free(s: State, i: nat, l: Lock) { forall j :: 0 <= j < |s| && j != i ==> l !in s[j].held }

  function Next(s: State, m: Move): (t: State)
    ensures |t| == |s|
  {
    if m.i >= |s| then s
    else
      var me := s[m.i];
      match m
      case Request(i, lease) => if me.todo != [] then s else s[i := Thread(me.held, lease)]
      case Acquire(i) =>
        if me.todo == [] || !Free(s, i, me.todo[0]) then s
        else s[i := Thread(me.held + {me.todo[0]}, me.todo[1..])]
      case Release(i, kept) => if me.todo != [] then s else s[i := Thread(me.held * kept, [])]
  }

  /** What a request may ask for: locks already held, or, in rank order, locks above all of them. */
  predicate Nests(held: set<Lock>, lease: seq<Lock>) {
    || (forall k :: 0 <= k < |lease| ==> lease[k] in held)
    || (Ranked(lease) && forall h, k :: h in held && 0 <= k < |lease| ==> Below(h, lease[k]))
  }

  predicate MoveOk(s: State, m: Move) {
    m.Request? && m.i < |s| && s[m.i].todo == [] ==> Nests(s[m.i].held, m.lease)
  }

  function Exec(s: State, moves: seq<Move>): (t: State)
    ensures |t| == |s|
    decreases |moves|
  {
    if moves == [] then s else Next(Exec(s, moves[..|moves| - 1]), moves[|moves| - 1])
  }

  predicate Disciplined(s: State, moves: seq<Move>)
    decreases |moves|
  {
    moves != [] ==>
      Disciplined(s, moves[..|moves| - 1]) && MoveOk(Exec(s, moves[..|moves| - 1]), moves[|moves| - 1])
  }

  predicate Inv(s: State) {
    forall i :: 0 <= i < |s| ==> Nests(s[i].held, s[i].todo)
  }

  lemma AcquireNests(t: Thread)
    requires t.todo != [] && Nests(t.held, t.todo)
    ensures Nests(t.held + {t.todo[0]}, t.todo[1..])
  {
    if forall k :: 0 <= k < |t.todo| ==> t.todo[k] in t.held {
      assert forall k :: 0 <= k < |t.todo[1..]| ==> t.todo[1..][k] == t.todo[k + 1];
    } else {
      forall h, k | h in t.held + {t.todo[0]} && 0 <= k < |t.todo[1..]| ensures Below(h, t.todo[1..][k]) {
        assert t.todo[1..][k] == t.todo[k + 1];
      }
    }
  }

  lemma NextKeepsInv(s: State, m: Move)
    requires Inv(s) && MoveOk(s, m)
    ensures Inv(Next(s, m))
  {
    hide Nests;
    if m.i < |s| {
      if m.Acquire? && s[m.i].todo != [] { AcquireNests(s[m.i]); }
      if m.Release? { NothingNests(s[m.i].held * m.kept); }
    }
  }

  lemma NothingNests(held: set<Lock>)
    ensures Nests(held, [])
  {
  }

  lemma {:induction false} RunKeepsInv(s: State, moves: seq<Move>)
    requires Inv(s) && Disciplined(s, moves)
    ensures Inv(Exec(s, moves))
    decreases |moves|
  {
    hide Inv, Next, MoveOk;
    if moves != [] {
      RunKeepsInv(s, moves[..|moves| - 1]);
      NextKeepsInv(Exec(s, moves[..|moves| - 1]), moves[|moves| - 1]);
    }
  }

  // ---- circular waits -------------------------------------------------------------

  predicate Waiting(s: State, i: nat) { i < |s| && s[i].todo != [] && s[i].todo[0] !in s[i].held }

  /** Thread i wants a lock that thread j holds. */
  predicate WaitsFor(s: State, i: nat, j: nat) {
    Waiting(s, i) && j < |s| && i != j && s[i].todo[0] in s[j].held
  }

  function Successor(c: seq<nat>, k: nat): nat
    requires k < |c|
  {
    if k + 1 < |c| then c[k + 1] else c[0]
  }

  predicate Circle(s: State, c: seq<nat>) {
    c != [] && forall k :: 0 <= k < |c| ==> WaitsFor(s, c[k], Successor(c, k))
  }

  lemma WaitRanks(s: State, i: nat, j: nat)
    requires Inv(s) && WaitsFor(s, i, j) && Waiting(s, j)
    ensures Below(s[i].todo[0], s[j].todo[0])
  {
    assert Nests(s[j].held, s[j].todo);
  }

  lemma {:induction false} WaitsAscend(s: State, c: seq<nat>, k: nat)
    requires Inv(s) && Circle(s, c) && 0 < k < |c|
    ensures Waiting(s, c[0]) && Waiting(s, c[k]) && Below(s[c[0]].todo[0], s[c[k]].todo[0])
  {
    hide Inv;
    assert WaitsFor(s, c[0], Successor(c, 0)) && WaitsFor(s, c[k], Successor(c, k));
    assert WaitsFor(s, c[k - 1], Successor(c, k - 1));
    WaitRanks(s, c[k - 1], c[k]);
    if k > 1 { WaitsAscend(s, c, k - 1); }
  }

  lemma NoCircleIn(s: State, c: seq<nat>)
    requires Inv(s)
    ensures !Circle(s, c)
  {
    hide Inv;
    if Circle(s, c) {
      assert WaitsFor(s, c[0], Successor(c, 0)) && WaitsFor(s, c[|c| - 1], Successor(c, |c| - 1));
      if |c| > 1 { WaitsAscend(s, c, |c| - 1); }
      WaitRanks(s, c[|c| - 1], c[0]);
    }
  }

  /** No reachable state of any number of disciplined threads has a circular wait. */
  lemma NoCircularWait(n: nat, moves: seq<Move>, c: seq<nat>)
    requires var start := seq(n, _ => Thread({}, [])); Disciplined(start, moves)
    ensures !Circle(Exec(seq(n, _ => Thread({}, [])), moves), c)
  {
    var start := seq(n, _ => Thread({}, []));
    RunKeepsInv(start, moves);
    NoCircleIn(Exec(start, moves), c);
  }
}
