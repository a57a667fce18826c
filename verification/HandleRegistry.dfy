/** The process-wide handle registry, updated in place. */
module HandleRegistry {
  import opened HandleForest
  import opened HandleLifecycle

  /** The entries of `m` not below any child already collected. */
  ghost predicate Collected(m: Registry, now: Registry, done: set<Handle>)
    requires Forest(m)
  {
    && (forall x :: x in now <==> x in m && !(exists c :: c in done && Under(m, x, c)))
    && (forall x | x in now :: now[x] == m[x])
  }

  /** Removing one more child's subtree. */
  lemma CollectOne(m: Registry, before: Registry, after: Registry, done: set<Handle>, c: Handle)
    requires Forest(m) && Forest(before) && Collected(m, before, done) && after == Remove(before, c)
    ensures Forest(after) && Collected(m, after, done + {c})
  {
    SubtreeIsDownward(before, c);
    RemovalKeepsForest(before, Subtree(before, c));
    forall x ensures x in after <==> x in m && !(exists d :: d in done + {c} && Under(m, x, d)) {
      if x in before { UnderAgrees(m, before, x, c); }
      if x in m && Under(m, x, c) { assert c in done + {c}; }
      if x in m && !(exists d :: d in done + {c} && Under(m, x, d)) { assert forall d :: d in done ==> d in done + {c}; }
    }
  }

  lemma CollectedAgrees(m: Registry, now: Registry, done: set<Handle>, x: Handle)
    requires Forest(m) && Collected(m, now, done)
    ensures x in now ==> x in m && now[x] == m[x]
  {
  }

  lemma CollectNone(m: Registry)
    requires Forest(m)
    ensures Collected(m, m, {})
  {
  }

  /** With every child collected, only h itself is left of its subtree. */
  lemma CollectAll(m: Registry, now: Registry, h: Handle)
    requires Forest(m) && h != 0 && Collected(m, now, Children(m, h))
    ensures now.Keys == m.Keys - (Subtree(m, h) - {h}) && now == Without(m, Subtree(m, h) - {h})
  {
    forall x | x in m ensures x in now <==> x == h || !Under(m, x, h) {
      if x == h {
        forall c | c in Children(m, h) ensures !Under(m, x, c) {
          if Under(m, x, c) { UnderChildIsUnder(m, x, c, h); }
        }
      } else if Under(m, x, h) {
        var c := UnderSomeChild(m, x, h);
      } else {
        forall c | c in Children(m, h) ensures !Under(m, x, c) {
          if Under(m, x, c) { UnderChildIsUnder(m, x, c, h); }
        }
      }
    }
  }

  function Height(m: Registry, h: Handle): nat { if h in m then 4 - Level(m[h].body) else 0 }

  lemma ChildrenAreLower(m: Registry, now: Registry, h: Handle, c: Handle)
    requires Forest(m) && h != 0 && c in Children(m, h) && (c in now ==> now[c] == m[c])
    ensures Height(now, c) < Height(m, h) && c != 0
  {
    assert ParentOk(m, m[c]);
  }

  class Table {
    var handles: Registry

    constructor ()
      ensures handles == map[]
    {
      handles := map[];
    }

    method ChildHandles(h: Handle) returns (children: set<Handle>)
      ensures children == Children(handles, h)
    {
      children := set x | x in handles && handles[x].parent == h;
    }

    /** Collects the subtree of h, children first. */
    method CollectSubtree(h: Handle)
      requires Forest(handles) && h != 0
      modifies this
      ensures handles == Remove(old(handles), h)
      decreases Height(handles, h), 1
    {
      ghost var m := handles;
      CollectChildren(h);
      var rest := handles;
      handles := map x | x in rest && x != h :: rest[x];
      assert handles == Remove(m, h);
    }

    /** Collects the subtrees of the children of h. */
    method CollectChildren(h: Handle)
      requires Forest(handles) && h != 0
      modifies this
      ensures handles == Without(old(handles), Subtree(old(handles), h) - {h}) && Forest(handles)
      decreases Height(handles, h), 0
    {
      hide Collected, Without, Subtree, Forest, Height, Children;
      ghost var m := handles;
      var children := ChildHandles(h);
      ghost var done: set<Handle> := {};
      CollectNone(m);
      while children != {}
        invariant Forest(handles) && Collected(m, handles, done) && done + children == Children(m, h)
        decreases children
      {
        var c :| c in children;
        ghost var before := handles;
        assert c in handles ==> handles[c] == m[c] by { CollectedAgrees(m, handles, done, c); }
        ChildrenAreLower(m, handles, h, c);
        CollectSubtree(c);
        CollectOne(m, before, handles, done, c);
        children, done := children - {c}, done + {c};
      }
      assert done == Children(m, h);
      CollectAll(m, handles, h);
    }

    method Register(h: Handle, e: Entry)
      modifies this
      ensures handles == old(handles)[h := e]
    {
      handles := handles[h := e];
    }

    method HasChildren(h: Handle) returns (r: bool)
      ensures r <==> Children(handles, h) != {}
    {
      var todo := handles.Keys;
      while todo != {}
        invariant todo <= handles.Keys
        invariant forall x | x in handles && x !in todo :: handles[x].parent != h
        decreases todo
      {
        var x :| x in todo;
        if handles[x].parent == h {
          assert x in Children(handles, h);
          return true;
        }
        todo := todo - {x};
      }
      return false;
    }

    /** Walks up to the connection a handle belongs to; 0 when there is none. */
    method ConnectionFor(h: Handle) returns (r: Handle)
      requires Forest(handles)
      ensures r == ConnectionOf(handles, h)
    {
      var current := h;
      while current != 0
        invariant ConnectionOf(handles, current) == ConnectionOf(handles, h)
        decreases if current in handles then Level(handles[current].body) + 1 else 0, current
      {
        if current !in handles { return 0; }
        if handles[current].body.Connection? { return current; }
        assert ParentOk(handles, handles[current]);
        current := handles[current].parent;
      }
      return 0;
    }

    /** Statements of the descriptor's connection drop it, one after the other. */
    method DetachFromStatements(d: Handle)
      modifies this
      ensures handles == Detach(old(handles), d)
    {
      if d !in handles { return; }
      var connection := handles[d].parent;
      ghost var m := handles;
      var todo := set x | x in handles && handles[x].body.Statement? && handles[x].parent == connection;
      while todo != {}
        invariant handles.Keys == m.Keys && todo <= m.Keys
        invariant forall x | x in m ::
          if x in todo then handles[x] == m[x] && m[x].body.Statement? && m[x].parent == connection
          else handles[x] == DetachFrom(m[x], connection, d)
        decreases todo
      {
        var x :| x in todo;
        handles := handles[x := DetachFrom(handles[x], connection, d)];
        todo := todo - {x};
      }
      assert handles == Detach(m, d);
    }

    method FreeHandle(tag: Tag, h: Handle) returns (code: Code)
      requires Wf(handles)
      modifies this
      ensures Wf(handles) && (handles, code) == Free(old(handles), tag, h)
    {
      hide Wf, Detach, Subtree, Without, Resolves;
      FreeKeepsWf(handles, tag, h);
      WfIsForest(handles);
      if h !in handles || TagOf(handles[h].body) != tag { return InvalidHandle; }
      var body := handles[h].body;
      if body.Statement? && body.needsData { return Error; }
      if body.Descriptor? {
        if body.automatic { return Error; }
        DetachKeepsWf(handles, h);
        WfIsForest(Detach(handles, h));
        DetachFromStatements(h);
      }
      if body.Connection? && body.connected { return Error; }
      if body.Environment? || body.Connection? {
        var dependents := HasChildren(h);
        if dependents { return Error; }
      }
      CollectSubtree(h);
      return Success;
    }

    method DisconnectHandle(h: Handle, ok: bool) returns (code: Code)
      requires Wf(handles)
      modifies this
      ensures Wf(handles) && (handles, code) == Disconnect(old(handles), h, ok)
    {
      hide Wf, Subtree, Without, Resolves;
      DisconnectKeepsWf(handles, h, ok);
      WfIsForest(handles);
      if h !in handles || !handles[h].body.Connection? { return InvalidHandle; }
      if !ok { return Error; }
      FlagKeepsWf(handles, h, Connection(false));
      handles := handles[h := handles[h].(body := Connection(false))];
      WfIsForest(handles);
      CollectChildren(h);
      return Success;
    }

    method SetApplicationDescriptor(h: Handle, row: bool, d: Handle) returns (code: Code)
      requires Wf(handles) && h in handles && handles[h].body.Statement?
      modifies this
      ensures Wf(handles) && (handles, code) == Associate(old(handles), h, row, d)
    {
      hide Wf, Resolves, ConnectionOf;
      AssociateKeepsWf(handles, h, row, d);
      WfIsForest(handles);
      var uses := handles[h].body.uses;
      var automatic := if row then uses.autoRow else uses.autoParam;
      if d == 0 || d == automatic {
        handles := Using(handles, h, row, automatic);
        return Success;
      }
      if d !in handles || !handles[d].body.Descriptor? { return Error; }
      if handles[d].body.automatic { return Error; }
      var owner := ConnectionFor(d);
      if owner != handles[h].parent { return Error; }
      handles := Using(handles, h, row, d);
      return Success;
    }

    /** A statement with its four implicit descriptors, registered before it. */
    method NewStatement(conn: Handle, h: Handle, d: Descriptors) returns (code: Code)
      requires Wf(handles) && FreshStatement(handles, h, d)
      modifies this
      ensures Wf(handles) && (handles, code) == AllocStatement(old(handles), conn, h, d)
    {
      hide Wf, Resolves;
      AllocStatementKeepsWf(handles, conn, h, d);
      if conn !in handles || !handles[conn].body.Connection? { return InvalidHandle; }
      if !handles[conn].body.connected { return Error; }
      ghost var m := handles;
      Register(d.autoRow, Entry(Descriptor(true), h));
      Register(d.autoParam, Entry(Descriptor(true), h));
      Register(d.impRow, Entry(Descriptor(true), h));
      Register(d.impParam, Entry(Descriptor(true), h));
      Register(h, Entry(Statement(d.(appRow := d.autoRow, appParam := d.autoParam), false), conn));
      assert handles == AllocStatement(m, conn, h, d).0;
      return Success;
    }
  }

  lemma WfIsForest(m: Registry)
    requires Wf(m)
    ensures Forest(m)
  {
  }
}
