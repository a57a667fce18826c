/** SQLCopyDesc beside SQLEndTran on an environment: copying locks both its arguments before it looks at
    their types, so one of them may be that environment. */
module CopyDeadlock {
  import opened HandleForest
  import opened LockLeases
  import opened LockOrder
  import opened LockCalls

  /** Thread 0 copies a descriptor from `source` to `target`; thread 1 ends the transactions of the
      environment `env`, whose connections are `connections`. */
  datatype Scene = Scene(m: Registry, source: Handle, target: Handle, env: Handle, connections: seq<Handle>)

  ghost predicate Valid(c: Scene) {
    Forest(c.m) && IsEnvironment(c.m, c.env) && Elements(c.connections) == ChildConnections(c.m, c.env)
  }

  ghost function Copying(c: Scene): seq<Handle>
    requires Valid(c)
  {
    Lease(c.m, [c.source, c.target])
  }

  ghost function Completing(c: Scene): seq<Handle>
    requires Valid(c)
  {
    Lease(c.m, c.connections)
  }

  function EnvLock(c: Scene): Lock { Lock(true, c.env) }

  function Members(ls: seq<Lock>): set<Lock> { set l | l in ls }

  /** What each thread asks for: the copy's lease; the environment, and then its connections. Calls
      end by giving up what they took. */
  ghost predicate Follows(c: Scene, s: State, m: Move)
    requires Valid(c) && |s| == 2
  {
    match m
    case Request(i, lease) =>
      || (i == 0 && s[0].held == {} && lease == Locks(c.m, Copying(c)))
      || (i == 1 && s[1].held == {} && lease == [EnvLock(c)])
      || (i == 1 && s[1].held == {EnvLock(c)} && lease == Locks(c.m, Completing(c)))
    case Acquire(i) => i < 2
    case Release(i, kept) => i < 2 && (kept == {} || (i == 1 && kept == {EnvLock(c)}))
  }

  const START: State := [Thread({}, []), Thread({}, [])]

  ghost predicate IsRun(c: Scene, moves: seq<Move>)
    requires Valid(c)
    decreases |moves|
  {
    moves != [] ==>
      var front := moves[..|moves| - 1];
      IsRun(c, front) && Follows(c, Exec(START, front), moves[|moves| - 1])
  }

  /** The copy locks a connection of the environment, and then the environment. */
  ghost predicate Crossed(c: Scene)
    requires Valid(c)
  {
    c.env in Copying(c) && exists x :: x in Copying(c) && x in ChildConnections(c.m, c.env) && x < c.env
  }

  // ---- locks and handles ------------------------------------------------------------

  /** A thread that holds `base` and the first a locks of a lease, and still wants the others. */
  predicate Partway(t: Thread, base: set<Lock>, lease: seq<Lock>, a: nat) {
    a <= |lease| && t.held == base + Members(lease[..a]) && t.todo == lease[a..]
  }

  lemma MemberIndex(ls: seq<Lock>, a: nat, l: Lock) returns (k: nat)
    requires a <= |ls| && l in Members(ls[..a])
    ensures k < a && ls[k] == l
  {
    k :| 0 <= k < |ls[..a]| && ls[..a][k] == l;
  }

  /** The environment's connections lie in order, and are not environments. */
  lemma CompletingLocks(c: Scene, k: nat)
    requires Valid(c) && k < |Completing(c)|
    ensures Completing(c)[k] in ChildConnections(c.m, c.env) && Locks(c.m, Completing(c))[k] == Lock(false, Completing(c)[k])
  {
    ConnectionLocks(c.m, c.connections, c.env);
    assert Completing(c)[k] in Elements(Completing(c));
  }

  // ---- only crossed calls deadlock ---------------------------------------------------

  ghost predicate Inv(c: Scene, s: State)
    requires Valid(c)
  {
    && |s| == 2
    && (s[0] == Thread({}, []) || exists a :: Partway(s[0], {}, Locks(c.m, Copying(c)), a))
    && (s[1] == Thread({}, []) || s[1] == Thread({}, [EnvLock(c)]) || s[1] == Thread({EnvLock(c)}, []) ||
        exists a :: Partway(s[1], {EnvLock(c)}, Locks(c.m, Completing(c)), a))
  }

  lemma AcquireGoesOn(t: Thread, base: set<Lock>, lease: seq<Lock>, a: nat)
    requires Partway(t, base, lease, a) && t.todo != []
    ensures Partway(Thread(t.held + {t.todo[0]}, t.todo[1..]), base, lease, a + 1)
  {
    assert lease[..a + 1] == lease[..a] + [lease[a]];
    assert t.todo[0] == lease[a] && t.todo[1..] == lease[a + 1..];
  }

  lemma RequestStarts(base: set<Lock>, lease: seq<Lock>)
    ensures Partway(Thread(base, lease), base, lease, 0)
  {
    assert lease[..0] == [] && lease[0..] == lease;
  }

  lemma NextKeepsInv(c: Scene, s: State, m: Move)
    requires Valid(c) && Inv(c, s) && Follows(c, s, m)
    ensures Inv(c, Next(s, m))
  {
    hide Partway, Lease, Valid;
    if m.Request? {
      RequestStarts(s[m.i].held, m.lease);
    } else if m.Acquire? && s[m.i].todo != [] {
      var t := s[m.i];
      if m.i == 0 {
        if a :| Partway(t, {}, Locks(c.m, Copying(c)), a) { AcquireGoesOn(t, {}, Locks(c.m, Copying(c)), a); }
      } else if t == Thread({}, [EnvLock(c)]) {
        assert [EnvLock(c)][1..] == [] && {} + {EnvLock(c)} == {EnvLock(c)};
      } else {
        var a: nat :| Partway(t, {EnvLock(c)}, Locks(c.m, Completing(c)), a);
        AcquireGoesOn(t, {EnvLock(c)}, Locks(c.m, Completing(c)), a);
      }
    } else if m.Release? {
      assert s[m.i].held * m.kept == {} || s[m.i].held * m.kept == {EnvLock(c)};
      if m.i == 0 { assert m.kept == {}; }
    }
  }

  lemma {:induction false} RunKeepsInv(c: Scene, moves: seq<Move>)
    requires Valid(c) && IsRun(c, moves)
    ensures Inv(c, Exec(START, moves))
    decreases |moves|
  {
    hide Inv, Next, Follows, Valid;
    if moves == [] {
      assert Inv(c, START) by { StartIsInv(c); }
    } else {
      RunKeepsInv(c, moves[..|moves| - 1]);
      NextKeepsInv(c, Exec(START, moves[..|moves| - 1]), moves[|moves| - 1]);
    }
  }

  lemma StartIsInv(c: Scene)
    requires Valid(c)
    ensures Inv(c, START)
  {
  }

  /** Two threads in a circle wait for each other. */
  lemma CircleOfTwo(s: State, c: seq<nat>)
    requires |s| == 2 && Circle(s, c)
    ensures WaitsFor(s, 0, 1) && WaitsFor(s, 1, 0)
  {
    assert WaitsFor(s, c[0], Successor(c, 0));
    var k := if |c| > 1 then 1 else 0;
    assert c[k] == Successor(c, 0) && WaitsFor(s, c[k], Successor(c, k));
  }

  /** A lock is not among those that precede it. */
  lemma NotYet(m: Registry, hs: seq<Handle>, a: nat)
    requires Ascending(hs) && a < |hs|
    ensures Locks(m, hs)[a] !in Members(Locks(m, hs)[..a])
  {
    if Locks(m, hs)[a] in Members(Locks(m, hs)[..a]) { var k := MemberIndex(Locks(m, hs), a, Locks(m, hs)[a]); }
  }

  lemma HandleIndex(m: Registry, hs: seq<Handle>, a: nat, l: Lock) returns (k: nat)
    requires a <= |hs| && l in Members(Locks(m, hs)[..a])
    ensures k < a && hs[k] == l.address && Locks(m, hs)[k] == l
  {
    k := MemberIndex(Locks(m, hs), a, l);
  }

  /** Thread 0 wants what follows the first a locks of the copy, thread 1 what follows the first b
      connections, and each wants what the other has. */
  lemma CrossedAt(c: Scene, a: nat, b: nat)
    requires Valid(c) && a < |Copying(c)| && b < |Completing(c)|
    requires var l, r := Locks(c.m, Copying(c)), Locks(c.m, Completing(c));
      r[b] in Members(l[..a]) && l[a] in {EnvLock(c)} + Members(r[..b])
    ensures Crossed(c)
  {
    CompletingLocks(c, b);
    hide Valid, Lease, Members, ChildConnections, IsEnvironment;
    var x := HandleIndex(c.m, Copying(c), a, Locks(c.m, Completing(c))[b]);
    assert Copying(c)[x] == Completing(c)[b] && Copying(c)[x] < Copying(c)[a];
    if Locks(c.m, Copying(c))[a] != EnvLock(c) {
      var y := HandleIndex(c.m, Completing(c), b, Locks(c.m, Copying(c))[a]);
    }
  }

  lemma CircleIsCrossed(c: Scene, s: State)
    requires Valid(c) && Inv(c, s) && WaitsFor(s, 0, 1) && WaitsFor(s, 1, 0)
    ensures Crossed(c)
  {
    hide Valid, Lease, Members, Crossed, IsEnvironment;
    var l, r := Locks(c.m, Copying(c)), Locks(c.m, Completing(c));
    var a: nat :| Partway(s[0], {}, l, a);
    var b: nat :| Partway(s[1], {EnvLock(c)}, r, b);
    assert s[0].todo[0] == l[a] && s[1].todo[0] == r[b];
    CrossedAt(c, a, b);
  }

  // ---- every crossed call can deadlock -----------------------------------------------

  /** Thread i goes on taking locks that nobody else holds. */
  lemma {:induction false} TakeMany(c: Scene, moves: seq<Move>, i: nat, base: set<Lock>, lease: seq<Lock>, n: nat)
    returns (longer: seq<Move>)
    requires Valid(c) && IsRun(c, moves) && i < 2 && n <= |lease|
    requires Partway(Exec(START, moves)[i], base, lease, 0)
    requires forall k :: 0 <= k < n ==> lease[k] !in Exec(START, moves)[1 - i].held
    ensures IsRun(c, longer) && Partway(Exec(START, longer)[i], base, lease, n)
    ensures Exec(START, longer)[1 - i] == Exec(START, moves)[1 - i]
    decreases n
  {
    hide Partway, Valid;
    if n == 0 { return moves; }
    var most := TakeMany(c, moves, i, base, lease, n - 1);
    var s := Exec(START, most);
    longer := most + [Acquire(i)];
    assert longer[..|longer| - 1] == most;
    assert s[i].todo != [] && s[i].todo[0] == lease[n - 1] by { Wanted(s[i], base, lease, n - 1); }
    AcquireGoesOn(s[i], base, lease, n - 1);
    assert Free(s, i, lease[n - 1]) by { FreeOfTwo(s, i, lease[n - 1]); }
    assert Next(s, Acquire(i)) == s[i := Thread(s[i].held + {s[i].todo[0]}, s[i].todo[1..])];
  }

  lemma Wanted(t: Thread, base: set<Lock>, lease: seq<Lock>, a: nat)
    requires Partway(t, base, lease, a) && a < |lease|
    ensures t.todo != [] && t.todo[0] == lease[a]
  {
  }

  lemma FreeOfTwo(s: State, i: nat, l: Lock)
    requires |s| == 2 && i < 2 && l !in s[1 - i].held
    ensures Free(s, i, l)
  {
  }

  /** Thread 1 holds the environment and asks for its connections, thread 0 asks for the copy's locks. */
  lemma Opening(c: Scene) returns (moves: seq<Move>)
    requires Valid(c)
    ensures IsRun(c, moves)
    ensures Exec(START, moves) == [Thread({}, Locks(c.m, Copying(c))), Thread({EnvLock(c)}, Locks(c.m, Completing(c)))]
  {
    hide Valid, Lease;
    var e, l, r := EnvLock(c), Locks(c.m, Copying(c)), Locks(c.m, Completing(c));
    var s1 := [Thread({}, []), Thread({}, [e])];
    var s2 := [Thread({}, []), Thread({e}, [])];
    var s3 := [Thread({}, []), Thread({e}, r)];
    var m0: seq<Move> := [];
    assert IsRun(c, m0) && Exec(START, m0) == START;
    var m1 := Append(c, m0, START, Request(1, [e]), s1);
    assert [e][1..] == [] && {} + {e} == {e};
    FreeOfTwo(s1, 1, e);
    var m2 := Append(c, m1, s1, Acquire(1), s2);
    var m3 := Append(c, m2, s2, Request(1, r), s3);
    moves := Append(c, m3, s3, Request(0, l), [Thread({}, l), Thread({e}, r)]);
  }

  lemma Append(c: Scene, moves: seq<Move>, s: State, m: Move, t: State) returns (longer: seq<Move>)
    requires Valid(c) && IsRun(c, moves) && Exec(START, moves) == s && |s| == 2
    requires Follows(c, s, m) && Next(s, m) == t
    ensures IsRun(c, longer) && Exec(START, longer) == t
  {
    longer := moves + [m];
    assert longer[..|moves|] == moves;
  }

  /** The lease of a copy up to the environment holds only lower handles. */
  lemma BeforeEnvironment(c: Scene, j: nat, k: nat)
    requires Valid(c) && k < j < |Copying(c)| && Copying(c)[j] == c.env
    ensures Copying(c)[k] < c.env && Locks(c.m, Copying(c))[k] != EnvLock(c)
  {
    hide Valid, Lease;
  }

  lemma IndexOf(hs: seq<Handle>, x: Handle) returns (k: nat)
    requires x in hs
    ensures k < |hs| && hs[k] == x
  {
    k :| 0 <= k < |hs| && hs[k] == x;
  }

  lemma {:induction false} FirstIn(hs: seq<Handle>, others: seq<Handle>, i: nat) returns (k: nat)
    requires i < |hs| && hs[i] in others
    ensures k <= i && hs[k] in others && forall n :: 0 <= n < k ==> hs[n] !in others
    decreases i
  {
    k := i;
    if n :| 0 <= n < i && hs[n] in others { k := FirstIn(hs, others, n); }
  }

  /** The first connection of the environment that the copy locks too, in the order in which SQLEndTran
      takes them. */
  lemma FirstCrossing(c: Scene) returns (k: nat)
    requires Valid(c) && Crossed(c)
    ensures k < |Completing(c)| && Completing(c)[k] in Copying(c) && Completing(c)[k] < c.env
    ensures forall n :: 0 <= n < k ==> Completing(c)[n] !in Copying(c)
  {
    ConnectionLocks(c.m, c.connections, c.env);
    hide Valid, Lease, Elements;
    var x :| x in Copying(c) && x in ChildConnections(c.m, c.env) && x < c.env;
    assert x in Completing(c) by { InElements(Completing(c), x); }
    var i := IndexOf(Completing(c), x);
    k := FirstIn(Completing(c), Copying(c), i);
  }

  lemma CrossedCanDeadlock(c: Scene) returns (moves: seq<Move>)
    requires Valid(c) && Crossed(c)
    ensures IsRun(c, moves) && Circle(Exec(START, moves), [0, 1])
  {
    hide Lease;
    var k := FirstCrossing(c);
    var j := IndexOf(Copying(c), c.env);
    var l, r := Locks(c.m, Copying(c)), Locks(c.m, Completing(c));
    moves := Opening(c);
    RequestStarts({}, l);
    RequestStarts({EnvLock(c)}, r);
    forall n | 0 <= n < j ensures l[n] != EnvLock(c) { BeforeEnvironment(c, j, n); }
    moves := TakeMany(c, moves, 0, {}, l, j);
    var held := Exec(START, moves)[0].held;
    forall n | 0 <= n < k ensures r[n] !in held {
      CompletingLocks(c, n);
      if r[n] in held { var y := MemberIndex(l, j, r[n]); }
    }
    moves := TakeMany(c, moves, 1, {EnvLock(c)}, r, k);
    CircleReached(c, Exec(START, moves), j, k);
  }

  lemma CircleReached(c: Scene, s: State, j: nat, k: nat)
    requires Valid(c) && |s| == 2 && j < |Copying(c)| && Copying(c)[j] == c.env && k < |Completing(c)|
    requires Partway(s[0], {}, Locks(c.m, Copying(c)), j) && Partway(s[1], {EnvLock(c)}, Locks(c.m, Completing(c)), k)
    requires Completing(c)[k] in Copying(c) && Completing(c)[k] < c.env
    ensures Circle(s, [0, 1])
  {
    hide Lease;
    var l, r := Locks(c.m, Copying(c)), Locks(c.m, Completing(c));
    CompletingLocks(c, k);
    var x := IndexOf(Copying(c), Completing(c)[k]);
    assert l[..j][x] == l[x] == r[k];
    assert s[0].todo[0] == l[j] == EnvLock(c);
    NotYet(c.m, Copying(c), j);
    NotYet(c.m, Completing(c), k);
    assert WaitsFor(s, 0, 1) && WaitsFor(s, 1, 0);
  }

  /** A circular wait between the two calls is reachable exactly when the copy locks a connection of
      the environment and, at a higher address, the environment. */
  lemma DeadlockIff(c: Scene)
    requires Valid(c)
    ensures (exists moves, circle :: IsRun(c, moves) && Circle(Exec(START, moves), circle)) <==> Crossed(c)
  {
    hide Valid, Inv, IsRun;
    if Crossed(c) {
      var moves := CrossedCanDeadlock(c);
      assert IsRun(c, moves) && Circle(Exec(START, moves), [0, 1]);
    }
    forall moves, circle | IsRun(c, moves) && Circle(Exec(START, moves), circle) ensures Crossed(c) {
      RunKeepsInv(c, moves);
      CircleOfTwo(Exec(START, moves), circle);
      CircleIsCrossed(c, Exec(START, moves));
    }
  }

  /** A registry in which it happens: connection 1 of environment 9, and a descriptor 5 of it, copied to
      the environment. */
  lemma CopyToEnvironmentDeadlocks()
    ensures var m: Registry := map[9 := Entry(Environment(true), 0), 1 := Entry(Connection(true), 9), 5 := Entry(Descriptor(false), 1)];
      var c := Scene(m, 5, 9, 9, [1]);
      Valid(c) && Crossed(c)
  {
    var m: Registry := map[9 := Entry(Environment(true), 0), 1 := Entry(Connection(true), 9), 5 := Entry(Descriptor(false), 1)];
    var c := Scene(m, 5, 9, 9, [1]);
    assert Elements([1]) == ChildConnections(m, 9);
    assert Chain(m, 5) == {5, 1} && Chain(m, 9) == {9};
    assert [5, 9][..1] == [5] && [5][..0] == [];
    assert Chains(m, [5]) == {5, 1} && Chains(m, [5, 9]) == {5, 1, 9};
    assert 9 in Elements(Copying(c)) && 1 in Elements(Copying(c));
  }
}
