/** The registry of ODBC handles as a value: a typed forest, its subtrees and its operations. */
module HandleForest {
  type Handle = nat   // 0 is SQL_NULL_HANDLE

  /** A statement's descriptors: the two in use by the application, its two automatic ones and its
      two implementation descriptors. */
  datatype Descriptors = Descriptors(
    appRow: Handle, appParam: Handle, autoRow: Handle, autoParam: Handle, impRow: Handle, impParam: Handle)

  datatype Object =
    | Environment(versionSet: bool)
    | Connection(connected: bool)
    | Statement(uses: Descriptors, needsData: bool)
    | Descriptor(automatic: bool)

  datatype Entry = Entry(body: Object, parent: Handle)

  type Registry = map<Handle, Entry>

  datatype Code = Success | Error | InvalidHandle

  // ---- the invariant --------------------------------------------------------------

  function Level(o: Object): nat {
    match o
    case Environment(_) => 0
    case Connection(_) => 1
    case Statement(_, _) => 2
    case Descriptor(automatic) => if automatic then 3 else 2
  }

  /** The only type of parent a handle can have. */
  predicate ParentType(child: Object, parent: Object) {
    match child
    case Environment(_) => false
    case Connection(_) => parent.Environment?
    case Statement(_, _) => parent.Connection?
    case Descriptor(automatic) => if automatic then parent.Statement? else parent.Connection?
  }

  predicate ParentOk(m: Registry, e: Entry) {
    if e.body.Environment? then e.parent == 0
    else e.parent in m && ParentType(e.body, m[e.parent].body)
  }

  /** A typed forest closed under parents. */
  predicate Forest(m: Registry) { 0 !in m && forall h | h in m :: ParentOk(m, m[h]) }

  predicate Implicit(m: Registry, statement: Handle, d: Handle) {
    d in m && m[d] == Entry(Descriptor(true), statement)
  }

  /** An application descriptor in use: the statement's automatic one or an explicit one of its connection. */
  predicate InUse(m: Registry, parent: Handle, automatic: Handle, d: Handle) {
    d == automatic || (d in m && m[d] == Entry(Descriptor(false), parent))
  }

  predicate Resolves(m: Registry, h: Handle)
    requires h in m && m[h].body.Statement?
  {
    var u := m[h].body.uses;
    && Implicit(m, h, u.autoRow) && Implicit(m, h, u.autoParam) && Implicit(m, h, u.impRow) && Implicit(m, h, u.impParam)
    && InUse(m, m[h].parent, u.autoRow, u.appRow) && InUse(m, m[h].parent, u.autoParam, u.appParam)
  }

  predicate Wf(m: Registry) {
    && Forest(m)
    && forall h | h in m && m[h].body.Statement? :: Resolves(m, h)
  }

  // ---- subtrees -------------------------------------------------------------------

  /** x is h or lies below it. */
  predicate Under(m: Registry, x: Handle, h: Handle)
    requires Forest(m) && x in m
    decreases Level(m[x].body)
  {
    assert ParentOk(m, m[x]);
    x == h || (!m[x].body.Environment? && Under(m, m[x].parent, h))
  }

  function Subtree(m: Registry, h: Handle): set<Handle>
    requires Forest(m)
  {
    set x | x in m && Under(m, x, h)
  }

  function Children(m: Registry, h: Handle): set<Handle> { set x | x in m && m[x].parent == h }

  function Without(m: Registry, gone: set<Handle>): Registry { map x | x in m && x !in gone :: m[x] }

  /** Ancestry does not depend on the rest of the registry. */
  lemma {:induction false} UnderAgrees(m: Registry, n: Registry, x: Handle, h: Handle)
    requires Forest(m) && Forest(n) && x in n && (forall y | y in n :: y in m && m[y] == n[y])
    ensures Under(m, x, h) == Under(n, x, h)
    decreases Level(n[x].body)
  {
    if x != h && !n[x].body.Environment? {
      assert ParentOk(n, n[x]);
      UnderAgrees(m, n, n[x].parent, h);
    }
  }

  /** Below h means below one of its children. */
  lemma {:induction false} UnderSomeChild(m: Registry, x: Handle, h: Handle) returns (c: Handle)
    requires Forest(m) && x in m && Under(m, x, h) && x != h
    ensures c in Children(m, h) && Under(m, x, c) && h != 0
    decreases Level(m[x].body)
  {
    assert ParentOk(m, m[x]);
    if m[x].parent == h { c := x; } else { c := UnderSomeChild(m, m[x].parent, h); }
  }

  lemma {:induction false} UnderChildIsUnder(m: Registry, x: Handle, c: Handle, h: Handle)
    requires Forest(m) && x in m && c in Children(m, h) && h != 0 && Under(m, x, c)
    ensures Under(m, x, h) && x != h
    decreases Level(m[x].body)
  {
    assert ParentOk(m, m[c]);
    if x != c {
      assert ParentOk(m, m[x]);
      UnderChildIsUnder(m, m[x].parent, c, h);
      UnderLevel(m, x, c);
    }
  }

  lemma {:induction false} UnderLevel(m: Registry, x: Handle, h: Handle)
    requires Forest(m) && x in m && Under(m, x, h)
    ensures h in m && Level(m[h].body) <= Level(m[x].body)
    ensures x != h ==> Level(m[h].body) < Level(m[x].body)
    decreases Level(m[x].body)
  {
    if x != h {
      assert ParentOk(m, m[x]);
      UnderLevel(m, m[x].parent, h);
    }
  }

  /** A set is a lower set when it contains the children of its members. */
  predicate Downward(m: Registry, gone: set<Handle>) {
    forall x | x in m && m[x].parent in gone :: x in gone
  }

  lemma RemovalKeepsForest(m: Registry, gone: set<Handle>)
    requires Forest(m) && Downward(m, gone)
    ensures Forest(Without(m, gone))
  {
    var n := Without(m, gone);
    forall h | h in n ensures ParentOk(n, n[h]) {
      assert ParentOk(m, m[h]);
    }
  }

  lemma SubtreeIsDownward(m: Registry, h: Handle)
    requires Forest(m)
    ensures Downward(m, Subtree(m, h))
  {
    forall x | x in m && m[x].parent in Subtree(m, h) ensures x in Subtree(m, h) {
      assert ParentOk(m, m[x]);
    }
  }
}
