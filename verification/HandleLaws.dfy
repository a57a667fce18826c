/** What an application sees of the handle operations: when each succeeds and exactly what it changes. */
module HandleLaws {
  import opened HandleForest
  import opened HandleLifecycle

  /** Nothing outside `touched` changed or came or went. */
  ghost predicate SameExcept(m: Registry, n: Registry, touched: set<Handle>) {
    forall x :: x !in touched ==> (x in n <==> x in m) && (x in m ==> n[x] == m[x])
  }

  predicate LiveStatement(m: Registry, h: Handle) { h in m && m[h].body.Statement? }

  /** An explicit descriptor of the statement's own connection. */
  predicate OwnDescriptor(m: Registry, h: Handle, d: Handle)
    requires h in m
  {
    d in m && m[d].body == Descriptor(false) && m[d].parent == m[h].parent
  }

  /** Association succeeds exactly with null, the automatic descriptor or an explicit one of the same
      connection. It changes the application descriptor asked for, to the one given or back to the
      automatic one, and nothing else. */
  lemma AssociateChangesOne(m: Registry, h: Handle, row: bool, d: Handle)
    requires Wf(m) && LiveStatement(m, h)
    ensures var (n, code) := Associate(m, h, row, d);
      var u := m[h].body.uses;
      var automatic := if row then u.autoRow else u.autoParam;
      && (code.Success? <==> d == 0 || d == automatic || OwnDescriptor(m, h, d))
      && (!code.Success? ==> n == m)
      && (code.Success? ==>
            && SameExcept(m, n, {h}) && LiveStatement(n, h) && n[h].parent == m[h].parent
            && n[h].body.needsData == m[h].body.needsData
            && var v := n[h].body.uses;
               var given := if d == 0 then automatic else d;
               && v.appRow == (if row then given else u.appRow) && v.appParam == (if row then u.appParam else given)
               && v.autoRow == u.autoRow && v.autoParam == u.autoParam && v.impRow == u.impRow && v.impParam == u.impParam)
  {
    if d in m && m[d].body == Descriptor(false) { ConnectionOfDescriptor(m, d); }
  }

  /** Freeing succeeds exactly on a live handle of the given type that is not an implicit descriptor, not
      a statement that needs data, not a connected connection and, for connections and environments, has
      no dependents. */
  lemma FreeSucceedsIff(m: Registry, tag: Tag, h: Handle)
    requires Wf(m)
    ensures Free(m, tag, h).1.Success? <==>
      && h in m && TagOf(m[h].body) == tag
      && m[h].body != Descriptor(true)
      && !(m[h].body.Statement? && m[h].body.needsData)
      && m[h].body != Connection(true)
      && (tag.Env? || tag.Dbc? ==> forall x | x in m :: m[x].parent != h)
    ensures !Free(m, tag, h).1.Success? ==> Free(m, tag, h).0 == m
    ensures Free(m, tag, h).1.InvalidHandle? <==> h !in m || TagOf(m[h].body) != tag
  {
    if h in m {
      assert Children(m, h) == {} <==> forall x | x in m :: m[x].parent != h by {
        assert forall x :: x in Children(m, h) <==> x in m && m[x].parent == h;
      }
    }
  }

  /** Freeing an explicit descriptor sends the statements that used it back to their automatic ones, and
      leaves every other survivor as it was. */
  lemma FreedDescriptorIsReplaced(m: Registry, d: Handle, x: Handle)
    requires Wf(m) && Free(m, Desc, d).1.Success? && x in m && x != d
    ensures var n := Free(m, Desc, d).0;
      && x in n && n[x].parent == m[x].parent
      && (!m[x].body.Statement? ==> n[x] == m[x])
      && (m[x].body.Statement? ==>
            && n[x].body.Statement? && n[x].body.needsData == m[x].body.needsData
            && var u, v := m[x].body.uses, n[x].body.uses;
               && v.appRow == (if u.appRow == d then u.autoRow else u.appRow)
               && v.appParam == (if u.appParam == d then u.autoParam else u.appParam)
               && v.autoRow == u.autoRow && v.autoParam == u.autoParam && v.impRow == u.impRow && v.impParam == u.impParam)
  {
    FreeRemovesSubtree(m, Desc, d);
    if x in Subtree(m, d) { FreeTakesOnlyImplicit(m, Desc, d, x); }
    hide Subtree;
    DetachKeepsOthers(m, d);
    if m[x].body.Statement? { assert Resolves(m, x); }
  }

  /** Freeing any other handle leaves every survivor as it was. */
  lemma FreeLeavesOthers(m: Registry, tag: Tag, h: Handle, x: Handle)
    requires Wf(m) && !tag.Desc? && Free(m, tag, h).1.Success?
    ensures x in Free(m, tag, h).0 ==> x in m && Free(m, tag, h).0[x] == m[x]
    ensures h !in Free(m, tag, h).0
  {
  }

  /** A statement is allocated exactly on an open connection, with its automatic descriptors in use. */
  lemma AllocStatementMeans(m: Registry, conn: Handle, h: Handle, d: Descriptors)
    requires Wf(m) && FreshStatement(m, h, d)
    ensures var (n, code) := AllocStatement(m, conn, h, d);
      && (code.Success? <==> conn in m && m[conn].body == Connection(true))
      && (!code.Success? ==> n == m)
      && (code.Success? ==>
            && SameExcept(m, n, {h, d.autoRow, d.autoParam, d.impRow, d.impParam})
            && LiveStatement(n, h) && n[h].parent == conn && !n[h].body.needsData
            && n[h].body.uses == Descriptors(d.autoRow, d.autoParam, d.autoRow, d.autoParam, d.impRow, d.impParam))
  {
  }

  /** A connection is allocated exactly below an environment whose version is set, unconnected; a
      descriptor exactly below an open connection. */
  lemma AllocMeans(m: Registry, parent: Handle, h: Handle)
    requires Fresh(m, h)
    ensures var (n, code) := AllocConnection(m, parent, h);
      && (code.Success? <==> parent in m && m[parent].body == Environment(true))
      && n == (if code.Success? then m[h := Entry(Connection(false), parent)] else m)
    ensures var (n, code) := AllocDescriptor(m, parent, h);
      && (code.Success? <==> parent in m && m[parent].body == Connection(true))
      && n == (if code.Success? then m[h := Entry(Descriptor(false), parent)] else m)
  {
  }

  /** A disconnected connection keeps its handle and loses everything below it, and nothing else does. */
  lemma DisconnectMeans(m: Registry, h: Handle, ok: bool, x: Handle)
    requires Wf(m) && x in m
    ensures var (n, code) := Disconnect(m, h, ok);
      && (code.Success? <==> ok && h in m && m[h].body.Connection?)
      && (!code.Success? ==> n == m)
      && (code.Success? ==>
            && (x in n <==> x == h || !Under(m, x, h))
            && h in n && n[h] == Entry(Connection(false), m[h].parent)
            && (x in n && x != h ==> n[x] == m[x]))
  {
    if h in m && m[h].body.Connection? && ok {
      FlagKeepsWf(m, h, Connection(false));
      FlagKeepsUnder(m, h, Connection(false), x, h);
    }
  }

  lemma {:induction false} FlagKeepsUnder(m: Registry, h: Handle, o: Object, x: Handle, y: Handle)
    requires Forest(m) && h in m && Level(o) == Level(m[h].body) && Forest(m[h := m[h].(body := o)]) && x in m
    requires o.Connection? && m[h].body.Connection?
    ensures Under(m[h := m[h].(body := o)], x, y) == Under(m, x, y)
    decreases Level(m[x].body)
  {
    assert ParentOk(m, m[x]);
    if x != y && !m[x].body.Environment? { FlagKeepsUnder(m, h, o, m[x].parent, y); }
  }
}
