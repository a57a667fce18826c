/** API calls on a registry as lock requests: ordinary calls can never wait in a circle, and the exact
    case in which copying a descriptor can. */
module LockCalls {
  import opened HandleForest
  import opened LockLeases
  import opened LockOrder

  // ---- calls ----------------------------------------------------------------------

  /** One step of a thread. Every call sees the registry as it is then. */
  datatype CallMove =
    | Enter(i: nat, m: Registry, hs: seq<Handle>)                // an entry point locks its handle arguments
    | Nest(i: nat, m: Registry, hs: seq<Handle>)                 // a call made inside a call
    | Complete(i: nat, m: Registry, env: Handle, cs: seq<Handle>) // SQLEndTran on an environment locks its connections
    | Take(i: nat)
    | Leave(i: nat, kept: set<Lock>)

  function ChildConnections(m: Registry, e: Handle): set<Handle> {
    set x | x in m && m[x].parent == e && m[x].body.Connection?
  }

  ghost function Request(m: Registry, hs: seq<Handle>): seq<Lock>
    requires Forest(m)
  {
    Locks(m, Lease(m, hs))
  }

  /** An entry point names at most one handle, or several of which none is an environment. */
  predicate Ordinary(m: Registry, hs: seq<Handle>) {
    |hs| <= 1 || forall k :: 0 <= k < |hs| ==> !IsEnvironment(m, hs[k])
  }

  /** What a thread in state t can do: enter with nothing held, repeat locks it holds, or, holding an
      environment alone, ask for that environment's connections. */
  ghost predicate CallOk(t: Thread, c: CallMove) {
    match c
    case Enter(_, m, hs) => Forest(m) && t.held == {} && Ordinary(m, hs)
    case Nest(_, m, hs) => Forest(m) && forall k :: 0 <= k < |Request(m, hs)| ==> Request(m, hs)[k] in t.held
    case Complete(_, m, env, cs) =>
      Forest(m) && IsEnvironment(m, env) && t.held == {Lock(true, env)} && Elements(cs) == ChildConnections(m, env)
    case _ => true
  }

  ghost function Lower(c: CallMove): Move
    requires !c.Take? && !c.Leave? ==> Forest(c.m)
  {
    match c
    case Enter(i, m, hs) => Move.Request(i, Request(m, hs))
    case Nest(i, m, hs) => Move.Request(i, Request(m, hs))
    case Complete(i, m, _, cs) => Move.Request(i, Request(m, cs))
    case Take(i) => Acquire(i)
    case Leave(i, kept) => Release(i, kept)
  }

  lemma {:induction false} ChainsOfConnections(m: Registry, cs: seq<Handle>)
    requires Forest(m) && forall k :: 0 <= k < |cs| ==> IsConnection(m, cs[k])
    ensures Chains(m, cs) == Elements(cs)
  {
    if cs != [] {
      var n := |cs| - 1;
      ChainsOfConnections(m, cs[..n]);
      assert cs == cs[..n] + [cs[n]];
    }
  }

  lemma ConnectionLocks(m: Registry, cs: seq<Handle>, env: Handle)
    requires Forest(m) && Elements(cs) == ChildConnections(m, env)
    ensures Chains(m, cs) == ChildConnections(m, env)
    ensures forall k :: 0 <= k < |Request(m, cs)| ==> !Request(m, cs)[k].env
  {
    forall k | 0 <= k < |cs| ensures IsConnection(m, cs[k]) { assert cs[k] in Elements(cs); }
    ChainsOfConnections(m, cs);
    var lease := Lease(m, cs);
    forall k | 0 <= k < |lease| ensures !IsEnvironment(m, lease[k]) { assert lease[k] in Elements(lease); }
  }

  /** Calls keep the lock discipline, whatever registry each of them sees. */
  lemma CallsAreDisciplined(t: Thread, c: CallMove)
    requires CallOk(t, c) && !c.Take? && !c.Leave?
    ensures Nests(t.held, Lower(c).lease)
  {
    match c
    case Enter(_, m, hs) =>
      if hs != [] { LeasesAreRanked(m, hs, Lease(m, hs)); }
      else { assert Chains(m, hs) == {}; assert Lease(m, hs) == []; }
    case Nest(_, _, _) =>
    case Complete(_, m, env, cs) =>
      ConnectionLocks(m, cs, env);
      RankedIff(m, Lease(m, cs));
  }

  /** A run of calls by n threads, each call seeing some registry. */
  ghost predicate IsCallRun(s: State, calls: seq<CallMove>)
    decreases |calls|
  {
    calls != [] ==>
      var front, c := calls[..|calls| - 1], calls[|calls| - 1];
      && IsCallRun(s, front)
      && (!c.Take? && !c.Leave? ==> Forest(c.m))
      && (c.i < |s| && After(s, front)[c.i].todo == [] ==> CallOk(After(s, front)[c.i], c))
  }

  /** The threads after a run of calls. */
  ghost function After(s: State, calls: seq<CallMove>): (t: State)
    ensures |t| == |s|
    decreases |calls|
  {
    if calls == [] then s
    else
      var t, c := After(s, calls[..|calls| - 1]), calls[|calls| - 1];
      if !c.Take? && !c.Leave? && !Forest(c.m) then t else Next(t, Lower(c))
  }

  lemma {:induction false} CallRunKeepsInv(s: State, calls: seq<CallMove>)
    requires Inv(s) && IsCallRun(s, calls)
    ensures Inv(After(s, calls))
    decreases |calls|
  {
    if calls != [] {
      hide Inv, Next, CallOk, Lower, Forest;
      var front, c := calls[..|calls| - 1], calls[|calls| - 1];
      CallRunKeepsInv(s, front);
      assert MoveOk(After(s, front), Lower(c)) by { LowerIsOk(After(s, front), c); }
      NextKeepsInv(After(s, front), Lower(c));
    }
  }

  lemma LowerIsOk(s: State, c: CallMove)
    requires !c.Take? && !c.Leave? ==> Forest(c.m)
    requires c.i < |s| && s[c.i].todo == [] ==> CallOk(s[c.i], c)
    ensures MoveOk(s, Lower(c))
  {
    hide Nests, Request, CallOk;
    if c.i < |s| && s[c.i].todo == [] && !c.Take? && !c.Leave? { CallsAreDisciplined(s[c.i], c); }
  }

  /** No run of ordinary calls, of any number of threads on any registries, reaches a circular wait. */
  lemma OrdinaryCallsNeverDeadlock(n: nat, calls: seq<CallMove>, c: seq<nat>)
    requires IsCallRun(seq(n, _ => Thread({}, [])), calls)
    ensures !Circle(After(seq(n, _ => Thread({}, [])), calls), c)
  {
    CallRunKeepsInv(seq(n, _ => Thread({}, [])), calls);
    NoCircleIn(After(seq(n, _ => Thread({}, [])), calls), c);
  }
}
