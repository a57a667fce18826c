/** Operation leases: which handle locks a call takes, in which order, and why threads that take them
    cannot wait for each other in a circle. */
module LockLeases {
  import opened HandleForest
  import opened HandleLifecycle

  // ---- which locks ----------------------------------------------------------------

  /** A handle and its ancestors up to its connection; nothing when it is not registered. */
  function Chain(m: Registry, h: Handle): (c: set<Handle>)
    requires Forest(m)
    decreases if h in m then Level(m[h].body) + 1 else 0
  {
    if h !in m then {}
    else if m[h].body.Connection? || m[h].body.Environment? then {h}
    else assert ParentOk(m, m[h]); {h} + Chain(m, m[h].parent)
  }

  function Chains(m: Registry, hs: seq<Handle>): set<Handle>
    requires Forest(m)
  {
    if hs == [] then {} else Chains(m, hs[..|hs| - 1]) + Chain(m, hs[|hs| - 1])
  }

  predicate Ascending(s: seq<Handle>) { forall i, j :: 0 <= i < j < |s| ==> s[i] < s[j] }

  function Elements(s: seq<Handle>): set<Handle> { set x | x in s }

  /** The least element of a set, found by going down from some element. */
  ghost function LeastFrom(s: set<Handle>, x: Handle): (r: Handle)
    requires x in s
    ensures r in s && forall y | y in s :: r <= y
    decreases x
  {
    if exists y :: y in s && y < x then (var y :| y in s && y < x; LeastFrom(s, y)) else x
  }

  ghost function Least(s: set<Handle>): (r: Handle)
    requires s != {}
    ensures r in s && forall y | y in s :: r <= y
  {
    var x :| x in s;
    LeastFrom(s, x)
  }

  /** The elements of a set in ascending order. */
  ghost function Sorted(s: set<Handle>): (r: seq<Handle>)
    ensures Ascending(r) && Elements(r) == s
    decreases |s|
  {
    if s == {} then []
    else
      var x := Least(s);
      var rest := Sorted(s - {x});
      PutFirst(x, rest);
      [x] + rest
  }

  lemma PutFirst(x: Handle, rest: seq<Handle>)
    requires Ascending(rest) && forall y | y in Elements(rest) :: x < y
    ensures Ascending([x] + rest) && Elements([x] + rest) == {x} + Elements(rest)
  {
    var r := [x] + rest;
    assert forall k :: 0 <= k < |rest| ==> rest[k] in Elements(rest) && r[k + 1] == rest[k];
    forall y | y in Elements(rest) ensures y in Elements(r) {
      var k :| 0 <= k < |rest| && rest[k] == y;
      assert r[k + 1] == y;
    }
    assert r[0] == x;
  }

  /** The lease of a call on some handles. */
  ghost function Lease(m: Registry, hs: seq<Handle>): (r: seq<Handle>)
    requires Forest(m)
    ensures Ascending(r) && Elements(r) == Chains(m, hs)
  {
    Sorted(Chains(m, hs))
  }

  /** Ascending order leaves no choice. */
  lemma {:induction false} AscendingIsUnique(a: seq<Handle>, b: seq<Handle>)
    requires Ascending(a) && Ascending(b) && Elements(a) == Elements(b)
    ensures a == b
    decreases |a|
  {
    assert a != [] ==> a[0] in Elements(a);
    assert b != [] ==> b[0] in Elements(b);
    if a != [] {
      assert a[0] == b[0];
      ElementsOfTail(a);
      ElementsOfTail(b);
      AscendingIsUnique(a[1..], b[1..]);
      assert a == [a[0]] + a[1..] && b == [b[0]] + b[1..];
    }
  }

  lemma ElementsOfTail(a: seq<Handle>)
    requires Ascending(a) && a != []
    ensures Elements(a[1..]) == Elements(a) - {a[0]}
  {
    forall x | x in Elements(a) - {a[0]} ensures x in Elements(a[1..]) {
      var k :| 0 <= k < |a| && a[k] == x;
      assert a[1..][k - 1] == x;
    }
    assert forall k :: 0 <= k < |a[1..]| ==> a[1..][k] == a[k + 1];
  }

  /** Insertion into an ordered map of handles. */
  method Emplace(ordered: seq<Handle>, x: Handle) returns (out: seq<Handle>, isNew: bool)
    requires Ascending(ordered)
    ensures Ascending(out) && Elements(out) == Elements(ordered) + {x} && (isNew <==> x !in ordered)
  {
    var k := 0;
    while k < |ordered| && ordered[k] < x
      invariant k <= |ordered| && forall i :: 0 <= i < k ==> ordered[i] < x
    {
      k := k + 1;
    }
    isNew := !(k < |ordered| && ordered[k] == x);
    out := if isNew then ordered[..k] + [x] + ordered[k..] else ordered;
    EmplaceElements(ordered, x, k, out, isNew);
  }

  lemma EmplaceElements(ordered: seq<Handle>, x: Handle, k: nat, out: seq<Handle>, isNew: bool)
    requires Ascending(ordered) && k <= |ordered| && (forall i :: 0 <= i < k ==> ordered[i] < x)
    requires k < |ordered| ==> ordered[k] >= x
    requires isNew == !(k < |ordered| && ordered[k] == x)
    requires out == if isNew then ordered[..k] + [x] + ordered[k..] else ordered
    ensures Elements(out) == Elements(ordered) + {x} && (isNew <==> x !in ordered)
  {
    assert ordered == ordered[..k] + ordered[k..];
  }

  /** Every element brings its ancestors along. */
  ghost predicate Upward(m: Registry, s: set<Handle>)
    requires Forest(m)
  {
    forall x | x in s :: x in m && Chain(m, x) <= s
  }

  /** lock_handles: walks up from each handle until its connection, a missing handle, or a handle
      already taken, and takes the locks in ascending order. */
  method LockHandles(m: Registry, hs: seq<Handle>) returns (lease: seq<Handle>)
    requires Forest(m)
    ensures Ascending(lease) && Elements(lease) == Chains(m, hs) && lease == Lease(m, hs)
  {
    lease := [];
    var i := 0;
    while i < |hs|
      invariant i <= |hs| && Ascending(lease)
      invariant Elements(lease) == Chains(m, hs[..i]) && Upward(m, Elements(lease))
    {
      lease := LockChain(m, hs[i], lease);
      assert hs[..i + 1][..i] == hs[..i];
      i := i + 1;
    }
    assert hs[..|hs|] == hs;
    AscendingIsUnique(lease, Lease(m, hs));
  }

  /** Adds one handle's chain, stopping early at a handle already taken. */
  method LockChain(m: Registry, h: Handle, taken: seq<Handle>) returns (lease: seq<Handle>)
    requires Forest(m) && Ascending(taken) && Upward(m, Elements(taken))
    ensures Ascending(lease) && Elements(lease) == Elements(taken) + Chain(m, h) && Upward(m, Elements(lease))
  {
    hide Elements, Upward, Ascending;
    lease := taken;
    var current := h;
    while current != 0
      invariant Ascending(lease)
      invariant Elements(taken) <= Elements(lease)
      invariant Elements(lease) + Chain(m, current) == Elements(taken) + Chain(m, h)
      invariant forall x | x in Elements(lease) && x !in Elements(taken) ::
        x in m && (current in m ==> Level(m[current].body) < Level(m[x].body))
      decreases if current in m then Level(m[current].body) + 1 else 0, current
    {
      if current !in m { break; }
      var isNew;
      assert current in lease <==> current in Elements(lease) by { InElements(lease, current); }
      lease, isNew := Emplace(lease, current);
      if !isNew {
        TakenChain(m, Elements(taken), current);
        break;
      }
      if m[current].body.Connection? { break; }
      assert ParentOk(m, m[current]);
      current := m[current].parent;
    }
    assert Chain(m, current) <= Elements(lease);
    ChainIsUpward(m, h);
    UnionIsUpward(m, Elements(taken), Chain(m, h));
  }

  lemma InElements(s: seq<Handle>, x: Handle)
    ensures x in s <==> x in Elements(s)
  {
  }

  lemma TakenChain(m: Registry, s: set<Handle>, x: Handle)
    requires Forest(m) && Upward(m, s) && x in s
    ensures Chain(m, x) <= s
  {
  }

  lemma UnionIsUpward(m: Registry, a: set<Handle>, b: set<Handle>)
    requires Forest(m) && Upward(m, a) && Upward(m, b)
    ensures Upward(m, a + b)
  {
  }

  lemma {:induction false} ChainIsUpward(m: Registry, h: Handle)
    requires Forest(m)
    ensures Upward(m, Chain(m, h))
    decreases if h in m then Level(m[h].body) + 1 else 0
  {
    if h in m && !m[h].body.Connection? && !m[h].body.Environment? {
      assert ParentOk(m, m[h]);
      ChainIsUpward(m, m[h].parent);
    }
  }

  /** The connection's lock is part of every lease on a handle below it, so two operations under one
      connection exclude each other. */
  lemma {:induction false} ConnectionIsInChain(m: Registry, h: Handle)
    requires Forest(m)
    ensures ConnectionOf(m, h) != 0 ==> ConnectionOf(m, h) in Chain(m, h)
    ensures h in m ==> h in Chain(m, h)
    decreases if h in m then Level(m[h].body) + 1 else 0
  {
    if h in m && !m[h].body.Connection? && !m[h].body.Environment? {
      assert ParentOk(m, m[h]);
      ConnectionIsInChain(m, m[h].parent);
    }
  }

  lemma {:induction false} ChainsContain(m: Registry, hs: seq<Handle>, i: nat)
    requires Forest(m) && i < |hs|
    ensures Chain(m, hs[i]) <= Chains(m, hs)
  {
    if i < |hs| - 1 { ChainsContain(m, hs[..|hs| - 1], i); }
  }

  lemma SameConnectionSharesLock(m: Registry, a: seq<Handle>, i: nat, b: seq<Handle>, j: nat)
    requires Forest(m) && i < |a| && j < |b| && ConnectionOf(m, a[i]) == ConnectionOf(m, b[j]) != 0
    ensures ConnectionOf(m, a[i]) in Chains(m, a) * Chains(m, b)
  {
    ConnectionIsInChain(m, a[i]);
    ConnectionIsInChain(m, b[j]);
    ChainsContain(m, a, i);
    ChainsContain(m, b, j);
  }

  predicate IsEnvironment(m: Registry, h: Handle) { h in m && m[h].body.Environment? }

  /** A chain holds an environment only if it starts at one, and then nothing else. */
  lemma {:induction false} EnvironmentsStandAlone(m: Registry, h: Handle, x: Handle)
    requires Forest(m) && x in Chain(m, h) && IsEnvironment(m, x)
    ensures x == h
    decreases if h in m then Level(m[h].body) + 1 else 0
  {
    if !m[h].body.Connection? && !m[h].body.Environment? {
      assert ParentOk(m, m[h]);
      if x != h { EnvironmentsStandAlone(m, m[h].parent, x); }
    }
  }

  lemma {:induction false} LeaseEnvironments(m: Registry, hs: seq<Handle>, x: Handle)
    requires Forest(m) && x in Chains(m, hs) && IsEnvironment(m, x)
    ensures x in hs
  {
    if x in Chain(m, hs[|hs| - 1]) { EnvironmentsStandAlone(m, hs[|hs| - 1], x); }
    else { LeaseEnvironments(m, hs[..|hs| - 1], x); }
  }
}
