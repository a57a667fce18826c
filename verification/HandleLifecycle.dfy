/** Allocation, freeing, disconnecting and descriptor association, and what every run of them keeps. */
module HandleLifecycle {
  import opened HandleForest

  datatype Tag = Env | Dbc | Stmt | Desc

  function TagOf(o: Object): Tag {
    match o
    case Environment(_) => Env
    case Connection(_) => Dbc
    case Statement(_, _) => Stmt
    case Descriptor(_) => Desc
  }

  /** Handles are addresses of new objects, so they name nothing that is registered. */
  predicate Fresh(m: Registry, h: Handle) { h != 0 && h !in m }

  function AllocEnvironment(m: Registry, h: Handle): Registry {
    m[h := Entry(Environment(false), 0)]
  }

  function AllocConnection(m: Registry, env: Handle, h: Handle): (Registry, Code) {
    if env !in m || !m[env].body.Environment? then (m, InvalidHandle)
    else if !m[env].body.versionSet then (m, Error)
    else (m[h := Entry(Connection(false), env)], Success)
  }

  function AllocDescriptor(m: Registry, conn: Handle, h: Handle): (Registry, Code) {
    if conn !in m || !m[conn].body.Connection? then (m, InvalidHandle)
    else if !m[conn].body.connected then (m, Error)
    else (m[h := Entry(Descriptor(false), conn)], Success)
  }

  /** The statement and its four implicit descriptors, in one step. */
  function AllocStatement(m: Registry, conn: Handle, h: Handle, d: Descriptors): (Registry, Code) {
    if conn !in m || !m[conn].body.Connection? then (m, InvalidHandle)
    else if !m[conn].body.connected then (m, Error)
    else
      var implicit := Entry(Descriptor(true), h);
      (m + map[h := Entry(Statement(d.(appRow := d.autoRow, appParam := d.autoParam), false), conn),
               d.autoRow := implicit, d.autoParam := implicit, d.impRow := implicit, d.impParam := implicit], Success)
  }

  /** Statements of the descriptor's connection fall back to their automatic descriptors. */
  function DetachFrom(e: Entry, conn: Handle, d: Handle): Entry {
    if !e.body.Statement? || e.parent != conn then e
    else
      var u := e.body.uses;
      e.(body := e.body.(uses := u.(appRow := if u.appRow == d then u.autoRow else u.appRow,
                                    appParam := if u.appParam == d then u.autoParam else u.appParam)))
  }

  function Detach(m: Registry, d: Handle): Registry {
    if d in m then map x | x in m :: DetachFrom(m[x], m[d].parent, d) else m
  }

  function Remove(m: Registry, h: Handle): Registry
    requires Forest(m)
  {
    Without(m, Subtree(m, h))
  }

  /** SQLFreeHandle, and SQLFreeStmt with SQL_DROP. */
  function Free(m: Registry, tag: Tag, h: Handle): (Registry, Code)
    requires Wf(m)
  {
    if h !in m || TagOf(m[h].body) != tag then (m, InvalidHandle)
    else match m[h].body
      case Statement(_, needsData) => if needsData then (m, Error) else (Remove(m, h), Success)
      case Descriptor(automatic) =>
        if automatic then (m, Error) else (DetachKeepsWf(m, h); Remove(Detach(m, h), h), Success)
      case Connection(connected) => if connected || Children(m, h) != {} then (m, Error) else (Remove(m, h), Success)
      case Environment(_) => if Children(m, h) != {} then (m, Error) else (Remove(m, h), Success)
  }

  /** SQLDisconnect; `ok` is whether the session could be closed. */
  function Disconnect(m: Registry, h: Handle, ok: bool): (Registry, Code)
    requires Wf(m)
  {
    if h !in m || !m[h].body.Connection? then (m, InvalidHandle)
    else if !ok then (m, Error)
    else
      var n := m[h := m[h].(body := Connection(false))];
      FlagKeepsWf(m, h, Connection(false));
      (Without(n, Subtree(n, h) - {h}), Success)
  }

  /** Associating an application descriptor with a statement; null means the automatic one. */
  function Associate(m: Registry, h: Handle, row: bool, d: Handle): (Registry, Code)
    requires Wf(m)
  {
    if h !in m || !m[h].body.Statement? then (m, InvalidHandle)
    else
      var u := m[h].body.uses;
      var automatic := if row then u.autoRow else u.autoParam;
      if d == 0 || d == automatic then (Using(m, h, row, automatic), Success)
      else if d !in m || !m[d].body.Descriptor? || m[d].body.automatic || ConnectionOf(m, d) != m[h].parent then (m, Error)
      else (Using(m, h, row, d), Success)
  }

  function Using(m: Registry, h: Handle, row: bool, d: Handle): Registry
    requires h in m && m[h].body.Statement?
  {
    var u := m[h].body.uses;
    m[h := m[h].(body := m[h].body.(uses := if row then u.(appRow := d) else u.(appParam := d)))]
  }

  /** The connection a handle belongs to, by walking up; 0 when there is none. */
  function ConnectionOf(m: Registry, h: Handle): Handle
    requires Forest(m)
    decreases if h in m then Level(m[h].body) + 1 else 0
  {
    if h !in m then 0
    else if m[h].body.Connection? then h
    else if m[h].body.Environment? then 0
    else assert ParentOk(m, m[h]); ConnectionOf(m, m[h].parent)
  }

  // ---- each operation keeps the invariant -----------------------------------------

  /** Changing a flag of an environment, a connection or a statement. */
  lemma FlagKeepsWf(m: Registry, h: Handle, o: Object)
    requires Wf(m) && h in m && TagOf(o) == TagOf(m[h].body) && !o.Descriptor?
    requires o.Statement? ==> o.uses == m[h].body.uses
    ensures Wf(m[h := m[h].(body := o)])
  {
    var n := m[h := m[h].(body := o)];
    forall x | x in n ensures ParentOk(n, n[x]) { assert ParentOk(m, m[x]); }
    forall x | x in n && n[x].body.Statement? ensures Resolves(n, x) { assert Resolves(m, x); }
  }

  lemma InsertKeepsWf(m: Registry, h: Handle, e: Entry)
    requires Wf(m) && Fresh(m, h) && ParentOk(m, e) && !e.body.Statement?
    ensures Wf(m[h := e])
  {
    var n := m[h := e];
    forall x | x in n ensures ParentOk(n, n[x]) { assert x in m ==> ParentOk(m, m[x]); }
    forall x | x in n && n[x].body.Statement? ensures Resolves(n, x) { assert Resolves(m, x); }
  }

  /** Five new, distinct addresses. */
  predicate FreshStatement(m: Registry, h: Handle, d: Descriptors) {
    && Fresh(m, h) && Fresh(m, d.autoRow) && Fresh(m, d.autoParam) && Fresh(m, d.impRow) && Fresh(m, d.impParam)
    && h !in {d.autoRow, d.autoParam, d.impRow, d.impParam}
    && d.autoRow !in {d.autoParam, d.impRow, d.impParam} && d.autoParam !in {d.impRow, d.impParam} && d.impRow != d.impParam
  }

  lemma AllocStatementKeepsForest(m: Registry, conn: Handle, h: Handle, d: Descriptors)
    requires Forest(m) && FreshStatement(m, h, d)
    ensures Forest(AllocStatement(m, conn, h, d).0)
  {
    var n := AllocStatement(m, conn, h, d).0;
    forall x | x in n ensures ParentOk(n, n[x]) { assert x in m ==> ParentOk(m, m[x]); }
  }

  lemma AllocStatementKeepsWf(m: Registry, conn: Handle, h: Handle, d: Descriptors)
    requires Wf(m) && FreshStatement(m, h, d)
    ensures Wf(AllocStatement(m, conn, h, d).0)
  {
    var n := AllocStatement(m, conn, h, d).0;
    AllocStatementKeepsForest(m, conn, h, d);
    hide Forest;
    forall x | x in n && n[x].body.Statement? ensures Resolves(n, x) {
      if x in m { ResolvesStays(m, n, x); }
    }
  }

  lemma ResolvesStays(m: Registry, n: Registry, x: Handle)
    requires x in m && m[x].body.Statement? && Resolves(m, x)
    requires forall y | y in m :: y in n && n[y] == m[y]
    ensures Resolves(n, x)
  {
  }

  lemma DetachKeepsWf(m: Registry, d: Handle)
    requires Wf(m) && d in m && m[d].body.Descriptor? && !m[d].body.automatic
    ensures Wf(Detach(m, d)) && Unreferenced(Detach(m, d), d)
  {
    var n := Detach(m, d);
    forall x | x in n ensures ParentOk(n, n[x]) { assert ParentOk(m, m[x]); }
    forall x | x in n && n[x].body.Statement? ensures Resolves(n, x) && n[x].body.uses.appRow != d && n[x].body.uses.appParam != d {
      assert Resolves(m, x);
    }
  }

  /** No statement uses d. */
  predicate Unreferenced(m: Registry, d: Handle) {
    forall x | x in m && m[x].body.Statement? :: m[x].body.uses.appRow != d && m[x].body.uses.appParam != d
  }

  /** A set whose removal keeps every statement's descriptors: with a child it holds the implicit
      descriptor's statement, and no survivor uses a removed descriptor. */
  predicate Separable(m: Registry, gone: set<Handle>) {
    && Downward(m, gone)
    && (forall x | x in m && x in gone && m[x].body == Descriptor(true) :: m[x].parent in gone)
    && (forall x | x in m && x !in gone && m[x].body.Statement? ::
          m[x].body.uses.appRow in m && m[x].body.uses.appParam in m &&
          (m[m[x].body.uses.appRow].body == Descriptor(false) ==> m[x].body.uses.appRow !in gone) &&
          (m[m[x].body.uses.appParam].body == Descriptor(false) ==> m[x].body.uses.appParam !in gone))
  }

  lemma RemovalKeepsWf(m: Registry, gone: set<Handle>)
    requires Wf(m) && Separable(m, gone)
    ensures Wf(Without(m, gone))
  {
    var n := Without(m, gone);
    RemovalKeepsForest(m, gone);
    forall x | x in n && n[x].body.Statement? ensures Resolves(n, x) {
      assert Resolves(m, x);
    }
  }

  lemma SubtreeIsSeparable(m: Registry, h: Handle)
    requires Wf(m) && h in m && m[h].body != Descriptor(true)
    requires m[h].body == Descriptor(false) ==> Unreferenced(m, h)
    ensures Separable(m, Subtree(m, h))
  {
    var gone := Subtree(m, h);
    SubtreeIsDownward(m, h);
    forall x | x in m && x in gone && m[x].body == Descriptor(true) ensures m[x].parent in gone {
      assert ParentOk(m, m[x]);
    }
    forall x | x in m && x !in gone && m[x].body.Statement?
      ensures m[x].body.uses.appRow in m && m[x].body.uses.appParam in m
      ensures m[m[x].body.uses.appRow].body == Descriptor(false) ==> m[x].body.uses.appRow !in gone
      ensures m[m[x].body.uses.appParam].body == Descriptor(false) ==> m[x].body.uses.appParam !in gone
    {
      assert Resolves(m, x);
      assert ParentOk(m, m[x]);
    }
  }

  lemma FreeKeepsWf(m: Registry, tag: Tag, h: Handle)
    requires Wf(m)
    ensures Wf(Free(m, tag, h).0)
  {
    hide Separable, Detach, Unreferenced, Resolves, ParentOk;
    if h in m && TagOf(m[h].body) == tag && Free(m, tag, h).1.Success? {
      var n := m;
      if tag.Desc? {
        DetachKeepsWf(m, h);
        n := Detach(m, h);
        assert h in n && n[h] == m[h] by { DetachKeepsOthers(m, h); }
      }
      SubtreeIsSeparable(n, h);
      RemovalKeepsWf(n, Subtree(n, h));
    }
  }

  lemma DetachKeepsOthers(m: Registry, d: Handle)
    requires d in m
    ensures Detach(m, d).Keys == m.Keys
    ensures forall x | x in m && !m[x].body.Statement? :: Detach(m, d)[x] == m[x]
  {
  }

  lemma DisconnectKeepsWf(m: Registry, h: Handle, ok: bool)
    requires Wf(m)
    ensures Wf(Disconnect(m, h, ok).0)
  {
    if h in m && m[h].body.Connection? && ok {
      var n := m[h := m[h].(body := Connection(false))];
      FlagKeepsWf(m, h, Connection(false));
      SubtreeIsSeparable(n, h);
      assert ParentOk(n, n[h]);
      assert n[h].parent !in Subtree(n, h) by {
        if n[h].parent in Subtree(n, h) { UnderLevel(n, n[h].parent, h); }
      }
      RemovalKeepsWf(n, Subtree(n, h) - {h});
    }
  }

  lemma {:induction false} ConnectionOfDescriptor(m: Registry, d: Handle)
    requires Forest(m) && d in m && m[d].body == Descriptor(false)
    ensures ConnectionOf(m, d) == m[d].parent
  {
    assert ParentOk(m, m[d]);
  }

  lemma UsingKeepsWf(m: Registry, h: Handle, row: bool, d: Handle)
    requires Wf(m) && h in m && m[h].body.Statement?
    requires var u := m[h].body.uses; InUse(m, m[h].parent, if row then u.autoRow else u.autoParam, d)
    ensures Wf(Using(m, h, row, d))
  {
    var n := Using(m, h, row, d);
    forall x | x in n ensures ParentOk(n, n[x]) { assert ParentOk(m, m[x]); }
    forall x | x in n && n[x].body.Statement? ensures Resolves(n, x) { assert Resolves(m, x); }
  }

  lemma AssociateKeepsWf(m: Registry, h: Handle, row: bool, d: Handle)
    requires Wf(m)
    ensures Wf(Associate(m, h, row, d).0)
  {
    hide Using, Resolves, ConnectionOf, ParentOk;
    if Associate(m, h, row, d).1.Success? {
      var u := m[h].body.uses;
      var automatic := if row then u.autoRow else u.autoParam;
      if d == 0 || d == automatic { UsingKeepsWf(m, h, row, automatic); }
      else {
        ConnectionOfDescriptor(m, d);
        UsingKeepsWf(m, h, row, d);
      }
    }
  }

  // ---- every run ------------------------------------------------------------------

  datatype Op =
    | NewEnvironment(h: Handle)
    | NewConnection(env: Handle, h: Handle)
    | NewDescriptor(conn: Handle, h: Handle)
    | NewStatement(conn: Handle, h: Handle, owned: Descriptors)
    | FreeOp(tag: Tag, h: Handle)
    | DisconnectOp(h: Handle, ok: bool)
    | AssociateOp(h: Handle, row: bool, d: Handle)
    | SetFlag(h: Handle, body: Object)   // version set, connected, connection lost, Need Data entered or left

  /** The addresses an operation allocates are new; a flag change changes nothing else. */
  predicate Allowed(m: Registry, op: Op) {
    match op
    case NewEnvironment(h) => Fresh(m, h)
    case NewConnection(_, h) => Fresh(m, h)
    case NewDescriptor(_, h) => Fresh(m, h)
    case NewStatement(_, h, d) => FreshStatement(m, h, d)
    case SetFlag(h, body) =>
      h in m && TagOf(body) == TagOf(m[h].body) && !body.Descriptor? && (body.Statement? ==> body.uses == m[h].body.uses)
    case _ => true
  }

  function Apply(m: Registry, op: Op): Registry
    requires Wf(m) && Allowed(m, op)
  {
    match op
    case NewEnvironment(h) => AllocEnvironment(m, h)
    case NewConnection(env, h) => AllocConnection(m, env, h).0
    case NewDescriptor(conn, h) => AllocDescriptor(m, conn, h).0
    case NewStatement(conn, h, d) => AllocStatement(m, conn, h, d).0
    case FreeOp(tag, h) => Free(m, tag, h).0
    case DisconnectOp(h, ok) => Disconnect(m, h, ok).0
    case AssociateOp(h, row, d) => Associate(m, h, row, d).0
    case SetFlag(h, body) => m[h := m[h].(body := body)]
  }

  lemma ApplyKeepsWf(m: Registry, op: Op)
    requires Wf(m) && Allowed(m, op)
    ensures Wf(Apply(m, op))
  {
    hide Wf, AllocStatement, Free, Disconnect, Associate;
    match op
    case NewEnvironment(h) => InsertKeepsWf(m, h, Entry(Environment(false), 0));
    case NewConnection(env, h) => if AllocConnection(m, env, h).1.Success? { InsertKeepsWf(m, h, Entry(Connection(false), env)); }
    case NewDescriptor(conn, h) => if AllocDescriptor(m, conn, h).1.Success? { InsertKeepsWf(m, h, Entry(Descriptor(false), conn)); }
    case NewStatement(conn, h, d) => AllocStatementKeepsWf(m, conn, h, d);
    case FreeOp(tag, h) => FreeKeepsWf(m, tag, h);
    case DisconnectOp(h, ok) => DisconnectKeepsWf(m, h, ok);
    case AssociateOp(h, row, d) => AssociateKeepsWf(m, h, row, d);
    case SetFlag(h, body) => FlagKeepsWf(m, h, body);
  }

  /** A run from the empty registry: each registry follows from the one before by some operation. */
  ghost predicate Step(m: Registry, op: Op, n: Registry) {
    Wf(m) ==> Allowed(m, op) && n == Apply(m, op)
  }

  ghost predicate IsRun(states: seq<Registry>, ops: seq<Op>) {
    && |states| == |ops| + 1 && states[0] == map[]
    && forall i :: 0 <= i < |ops| ==> Step(states[i], ops[i], states[i + 1])
  }

  /** On every run the registry is a typed forest closed under parents and all descriptor handles
      of every live statement resolve to live descriptors of its connection. */
  lemma {:induction false} RunKeepsWf(states: seq<Registry>, ops: seq<Op>, k: nat)
    requires IsRun(states, ops) && k < |states|
    ensures Wf(states[k])
  {
    if k > 0 {
      hide Wf, Apply;
      RunKeepsWf(states, ops, k - 1);
      assert Step(states[k - 1], ops[k - 1], states[k]);
      ApplyKeepsWf(states[k - 1], ops[k - 1]);
    }
  }

  /** A successful free takes exactly the handle and its descendants out of the registry. */
  lemma FreeRemovesSubtree(m: Registry, tag: Tag, h: Handle)
    requires Wf(m) && Free(m, tag, h).1.Success?
    ensures Free(m, tag, h).0.Keys == m.Keys - Subtree(m, h)
  {
    hide Resolves, ParentOk, Detach, Level;
    if tag.Desc? {
      DetachKeepsWf(m, h);
      DetachKeepsOthers(m, h);
      forall x | x in m ensures Under(Detach(m, h), x, h) == Under(m, x, h) { DetachKeepsUnder(m, h, x, h); }
      assert Subtree(Detach(m, h), h) == Subtree(m, h);
    }
  }

  /** Only a statement can take others with it: its own implicit descriptors. */
  lemma FreeTakesOnlyImplicit(m: Registry, tag: Tag, h: Handle, x: Handle)
    requires Wf(m) && Free(m, tag, h).1.Success? && x in Subtree(m, h) && x != h
    ensures tag.Stmt? && m[x] == Entry(Descriptor(true), h)
  {
    hide Resolves, Detach;
    assert ParentOk(m, m[x]);
    var c := UnderSomeChild(m, x, h);
    assert ParentOk(m, m[c]);
    UnderLevel(m, x, c);
  }

  lemma {:induction false} DetachKeepsUnder(m: Registry, d: Handle, x: Handle, h: Handle)
    requires Forest(m) && d in m && Forest(Detach(m, d)) && x in m
    ensures Under(Detach(m, d), x, h) == Under(m, x, h)
    decreases Level(m[x].body)
  {
    assert Level(Detach(m, d)[x].body) == Level(m[x].body) && Detach(m, d)[x].parent == m[x].parent;
    if x != h && !m[x].body.Environment? {
      assert ParentOk(m, m[x]);
      DetachKeepsUnder(m, d, m[x].parent, h);
    }
  }
}
