/** The dialplan cache as an object: clean-up loops, sorted views, the stored document, and every operation on the
    cached tree, proved against the steps of DialplanSteps. */
module DialplanStore {
  import opened AnyOrder
  import opened DialplanSteps
  import opened DialplanTree
  import opened DialplanDocuments
  import opened DialplanRuns
  import opened DialplanTables
  import OT = OrderedTables
  import opened Positions
  import MP = MoveProgram

  // ----- sorting -----

  function Members(v: seq<Key>): (s: set<Key>)
    ensures forall k :: k in s <==> k in v
  {
    set k | k in v
  }

  lemma InsertedMembers(w: seq<Key>, p: nat, x: Key)
    requires p <= |w|
    ensures forall k :: k in w[..p] + [x] + w[p..] <==> k in w || k == x
  {
    assert w == w[..p] + w[p..];
  }

  lemma Inserted(w: seq<Key>, p: nat, x: Key, nodes: Nodes, s: set<Key>)
    requires IsSorted(w, nodes, s) && x in nodes && x !in s && p <= |w|
    requires forall a :: 0 <= a < p ==> w[a] in nodes && nodes[w[a]].position <= nodes[x].position
    requires forall a :: p <= a < |w| ==> w[a] in nodes && nodes[x].position < nodes[w[a]].position
    ensures IsSorted(w[..p] + [x] + w[p..], nodes, s + {x})
  {
    var r := w[..p] + [x] + w[p..];
    InsertedMembers(w, p, x);
    assert x !in w;
    forall a, b | 0 <= a < b < |r|
      ensures r[a] != r[b] && r[a] in nodes && r[b] in nodes && nodes[r[a]].position <= nodes[r[b]].position
    {
      var a', b' := if a < p then a else a - 1, if b < p then b else b - 1;
      if a == p {
        assert r[b] == w[b'] && w[b'] in w;
      } else if b == p {
        assert r[a] == w[a'] && w[a'] in w;
      } else {
        assert r[a] == w[a'] && r[b] == w[b'];
      }
    }
  }

  /** The sort of the list views: stable, by position. */
  method SortByPosition(nodes: Nodes, v: seq<Key>) returns (w: seq<Key>)
    requires NoRepeat(v) && forall k :: k in v ==> k in nodes
    ensures IsSorted(w, nodes, Members(v))
  {
    w := [];
    for i := 0 to |v|
      invariant IsSorted(w, nodes, Members(v[..i]))
    {
      var x := v[i];
      assert x in v;
      var p := |w|;
      while p > 0 && w[p - 1] in nodes && nodes[w[p - 1]].position > nodes[x].position
        invariant 0 <= p <= |w|
        invariant p < |w| ==> w[p] in nodes && nodes[x].position < nodes[w[p]].position
      {
        p := p - 1;
      }
      forall a | 0 <= a < p ensures w[a] in nodes && nodes[w[a]].position <= nodes[x].position {
        assert w[a] in w && w[p - 1] in w;
      }
      forall a | p <= a < |w| ensures w[a] in nodes && nodes[x].position < nodes[w[a]].position {
        assert w[a] in w && w[p] in w;
      }
      Inserted(w, p, x, nodes, Members(v[..i]));
      assert Members(v[..i + 1]) == Members(v[..i]) + {x};
      w := w[..p] + [x] + w[p..];
    }
    assert v[..|v|] == v;
  }

  function OfKind(keys: set<Key>, kind: Kind): (s: set<Key>)
    ensures forall k :: k in s <==> k in keys && k.kind == kind
  {
    set k | k in keys && k.kind == kind
  }

  lemma RerenderedNone(s: Cache)
    ensures Rerendered(s, {}, s)
  {
  }

  lemma RenderedOne(nodes: Nodes, nested: Nested, docs: map<Key, Doc>, c: Key, d: Doc)
    requires Shows(nodes, nested, c, d)
    ensures RenderedDocs(nodes, nested, docs, {c}, docs[c := d])
  {
  }

  lemma ContextPublished(s: Cache, e: Edit, c: Key, t: Cache)
    requires Tied(s) && Accepted(s, e) && Affected(s, e) == {c}
    requires t == Edited(s, e).(docs := t.docs)
    requires !t.noProceed ==> t.docs == s.docs
    requires t.noProceed ==> c in t.docs && t.docs == s.docs[c := t.docs[c]] && Shows(t.nodes, t.nested, c, t.docs[c])
    ensures Tied(t) && Step(s, e, t)
  {
    EditTied(s, e);
    EditedKeepsDocs(s, e);
    if t.noProceed { RenderedOne(t.nodes, t.nested, s.docs, c, t.docs[c]); }
  }

  lemma EditedKeepsDocs(s: Cache, e: Edit)
    ensures Edited(s, e).docs == s.docs
  {
  }

  lemma RenderedMore(nodes: Nodes, nested: Nested, docs: map<Key, Doc>, done: set<Key>, mid: map<Key, Doc>, c: Key,
      d: Doc)
    requires RenderedDocs(nodes, nested, docs, done, mid) && Shows(nodes, nested, c, d)
    ensures RenderedDocs(nodes, nested, docs, done + {c}, mid[c := d])
  {
  }

  class Dialplans {
    var nodes: Nodes
    var nested: Nested
    var flat: set<Key>
    var rows: Nodes
    var noProceed: bool
    var docs: map<Key, Doc>

    ghost function State(): Cache
      reads this
    {
      Cache(nodes, nested, flat, rows, noProceed, docs)
    }

    constructor ()
      ensures State() == EMPTY && Good(State())
    {
      nodes, nested, flat, rows, noProceed, docs := map[], map[], {}, map[], false, map[];
    }

    // ----- clean-up -----

    method ClearUpKind(kind: Kind)
      requires Shaped(nodes, nested) && kind != Ctx
      modifies this`flat
      ensures flat == ClearUp(nodes, old(flat), kind)
    {
      var todo := OfKind(flat, kind);
      ghost var all := todo;
      while todo != {}
        invariant todo <= all == OfKind(old(flat), kind)
        invariant forall j :: j in flat <==>
                    j in old(flat) && (j in all && j !in todo && j in nodes ==> nodes[j].parent in old(flat))
        decreases todo
      {
        var j := Pick(todo);
        todo := todo - {j};
        if j in nodes && nodes[j].parent !in flat {
          flat := flat - {j};
        }
      }
    }

    method ClearConditions()
      requires Shaped(nodes, nested)
      modifies this`flat
      ensures flat == DialplanSteps.ClearConditions(nodes, old(flat))
    {
      ClearUpKind(Cond);
      ClearUpKind(Regex);
      ClearUpKind(Act);
      ClearUpKind(Anti);
    }

    method ClearExtensions()
      requires Shaped(nodes, nested)
      modifies this`flat
      ensures flat == DialplanSteps.ClearExtensions(nodes, old(flat))
    {
      ClearUpKind(Ext);
      ClearConditions();
    }

    // ----- views and the stored document -----

    method Enabled(k: Key, kind: Kind) returns (v: seq<Key>)
      ensures NoRepeat(v) && forall j :: j in v <==> j in EnabledKids(nodes, nested, k, kind)
    {
      v := [];
      var all := OfKind(Kids(nested, k), kind);
      var todo := all;
      while todo != {}
        invariant todo <= all && NoRepeat(v)
        invariant forall j :: j in v <==> j in all && j !in todo && j in nodes && nodes[j].enabled
        decreases todo
      {
        var j := Pick(todo);
        todo := todo - {j};
        if j in nodes && nodes[j].enabled {
          v := v + [j];
        }
      }
    }

    method List(k: Key, kind: Kind) returns (v: seq<Key>)
      ensures IsSorted(v, nodes, EnabledKids(nodes, nested, k, kind))
    {
      v := Enabled(k, kind);
      assert Members(v) == EnabledKids(nodes, nested, k, kind);
      v := SortByPosition(nodes, v);
    }

    method ShownList(v: seq<Key>) returns (ps: seq<Payload>)
      ensures ps == ShownAll(nodes, v)
    {
      ps := [];
      for i := 0 to |v|
        invariant ps == ShownAll(nodes, v[..i])
      {
        ps := ps + [ShownAt(nodes, v[i])];
      }
      assert v[..|v|] == v;
    }

    method DocOfCondition(k: Key) returns (d: DocCond)
      ensures ShowsCond(nodes, nested, k, d)
    {
      var actions := List(k, Act);
      var shown := ShownList(actions);
      var antiActions := List(k, Anti);
      var antiShown := ShownList(antiActions);
      var regexes := Enabled(k, Regex);
      assert Lists(regexes, EnabledKids(nodes, nested, k, Regex));
      var regexShown := ShownList(regexes);
      d := DocCond(ShownAt(nodes, k), shown, antiShown, multiset(regexShown));
    }

    method DocsOfConditions(v: seq<Key>) returns (ds: seq<DocCond>)
      ensures ShowConds(nodes, nested, v, ds)
    {
      ds := [];
      for i := 0 to |v|
        invariant |ds| == i && forall m :: 0 <= m < i ==> ShowsCond(nodes, nested, v[m], ds[m])
      {
        var one := DocOfCondition(v[i]);
        ds := ds + [one];
      }
    }

    method DocOfExtension(k: Key) returns (d: DocExt)
      ensures ShowsExt(nodes, nested, k, d)
    {
      var conditions := List(k, Cond);
      var ds := DocsOfConditions(conditions);
      d := DocExt(ShownAt(nodes, k), ds);
    }

    method DocsOfExtensions(v: seq<Key>) returns (ds: seq<DocExt>)
      ensures ShowExts(nodes, nested, v, ds)
    {
      ds := [];
      for i := 0 to |v|
        invariant |ds| == i && forall m :: 0 <= m < i ==> ShowsExt(nodes, nested, v[m], ds[m])
      {
        var one := DocOfExtension(v[i]);
        ds := ds + [one];
      }
    }

    /** Without NoProceed nothing is stored; otherwise the context's document shows its tree as it is now.  With equal
        sibling positions there may be several such documents, with distinct ones it is the rendering. */
    method CacheFullXML(c: Key)
      modifies this`docs
      ensures !noProceed ==> docs == old(docs)
      ensures noProceed ==> c in docs && docs == old(docs)[c := docs[c]] && Shows(nodes, nested, c, docs[c])
      ensures noProceed ==> ContextSaid(nodes, nested, c, docs[c])
    {
      if !noProceed { return; }
      var extensions := List(c, Ext);
      var ds := DocsOfExtensions(extensions);
      docs := docs[c := Doc(ShownAt(nodes, c), ds)];
      ShownContext(nodes, nested, c, docs[c]);
    }

    /** The end of an operation: the edited context is rendered again. */
    method Publish(ghost s: Cache, ghost e: Edit, context: Key)
      requires Tied(s) && Accepted(s, e) && State() == Edited(s, e) && Affected(s, e) == {context}
      modifies this`docs
      ensures Tied(State()) && Step(s, e, State())
    {
      CacheFullXML(context);
      ContextPublished(s, e, context, State());
    }

    // ----- operations, for any positions; `refused` stands for a taken name or a failing database -----

    method SetContext(id: int, name: string, refused: bool) returns (ok: bool)
      requires Tied(State()) && Key(Ctx, id) !in nodes
      modifies this
      ensures Tied(State())
      ensures ok <==> name != "" && !refused
      ensures Step(old(State()), if ok then AddContext(id, name) else Refused, State())
    {
      ghost var s := State();
      RerenderedNone(s);
      if name == "" || refused { return false; }
      var k, node := Key(Ctx, id), Node(Key(Ctx, id), 0, true, ContextFields(name));
      rows := rows[k := node];
      nodes := nodes[k := node];
      nested := nested[k := {}];
      CacheFullXML(k);
      flat := flat + {k};
      ContextPublished(s, AddContext(id, name), k, State());
      return true;
    }

    method NextPosition(kind: Kind, parent: Key) returns (position: int)
      ensures IsNextPosition(rows, kind, parent, position)
    {
      var todo := OfKind(rows.Keys, kind);
      ghost var all := todo;
      var found, highest := false, 0;
      while todo != {}
        invariant todo <= all == OfKind(rows.Keys, kind)
        invariant !found <==> forall j :: j in all && j !in todo ==> rows[j].parent != parent
        invariant found ==> forall j :: j in all && j !in todo && rows[j].parent == parent ==>
                    rows[j].position <= highest
        invariant found ==> exists j :: IsSibling(rows, kind, parent, j) && rows[j].position == highest
        decreases todo
      {
        var j := Pick(todo);
        todo := todo - {j};
        if rows[j].parent == parent && (!found || rows[j].position > highest) {
          assert IsSibling(rows, kind, parent, j);
          found, highest := true, rows[j].position;
        }
      }
      position := if found then highest + 1 else 1;
      if found {
        var j :| IsSibling(rows, kind, parent, j) && rows[j].position == highest;
        assert rows[j].position == position - 1;
      }
    }

    /** Regexes have no position. */
    method FreePosition(kind: Kind, parent: Key) returns (position: int)
      ensures Ordered(kind) ==> IsNextPosition(rows, kind, parent, position)
    {
      position := 0;
      if kind != Regex {
        position := NextPosition(kind, parent);
      }
    }

    method Insert(k: Key, node: Node)
      modifies this
      ensures State() == WithChild(old(State()), k, node)
    {
      rows := rows[k := node];
      nodes := nodes[k := node];
      nested := Linking(nested, node.parent, k);
      flat := flat + {k};
    }

    /** SetContextExtension, SetExtensionCondition, SetConditionRegex, SetConditionAction, SetConditionAntiAction. */
    method Add(k: Key, parent: Key, payload: Payload, refused: bool) returns (ok: bool, position: int)
      requires Tied(State()) && k !in nodes && k.kind != Ctx && parent.kind == ParentKind(k.kind)
      modifies this
      ensures Tied(State())
      ensures ok <==> parent in old(flat) && !refused
      ensures ok && k.kind != Regex ==> IsNextPosition(old(rows), k.kind, parent, position)
      ensures Step(old(State()), if ok then DialplanSteps.Add(k, Node(parent, position, true, payload))
              else Refused, State())
    {
      ghost var s := State();
      RerenderedNone(s);
      if parent !in flat || refused { return false, 0; }
      position := FreePosition(k.kind, parent);
      var node := Node(parent, position, true, payload);
      var context := CtxOf(nodes, parent);
      Insert(k, node);
      Publish(s, DialplanSteps.Add(k, node), context);
      return true, position;
    }

    method Drop(k: Key)
      requires Shaped(nodes, nested) && k in nodes
      modifies this
      ensures State() == Removed(old(State()), k)
    {
      rows := Cascade(rows, k);
      flat := flat - {k};
      if k.kind == Ctx || k.kind == Ext {
        ClearExtensions();
      } else if k.kind == Cond {
        ClearConditions();
      }
      nested := Unlinking(nodes, nested, k);
    }

    /** The deletes; the database cascades, the flat maps are cleaned up from the deleted level on. */
    method Delete(k: Key, refused: bool) returns (ok: bool)
      requires Tied(State())
      modifies this
      ensures Tied(State())
      ensures ok <==> k in old(flat) && !refused
      ensures Step(old(State()), if ok then Remove(k) else Refused, State())
    {
      ghost var s := State();
      RerenderedNone(s);
      if k !in flat || refused { return false; }
      var context := CtxOf(nodes, k);
      Drop(k);
      if k.kind != Ctx {
        Publish(s, Remove(k), context);
      } else {
        EditTied(s, Remove(k));
        RerenderedNone(State());
      }
      return true;
    }

    method SetName(k: Key, name: string, hit: set<Key>)
      requires k in rows
      modifies this`rows, this`nodes
      ensures State() == Renamed(old(State()), k, name, hit)
    {
      rows := rows[k := Named(rows[k], name)];
      nodes := map j | j in nodes :: if j in hit then Named(nodes[j], name) else nodes[j];
    }

    /** RenameContext, RenameExtension; `hit` are the objects that the name indexes lead to, for a context itself
        alone. */
    method Rename(k: Key, name: string, hit: set<Key>, refused: bool) returns (ok: bool)
      requires Tied(State()) && Rank(k.kind) <= 1 && hit <= flat
      requires (forall j :: j in hit ==> j.kind == k.kind) && (k.kind == Ctx ==> hit == {k})
      modifies this
      ensures Tied(State())
      ensures ok <==> k in old(flat) && name != "" && !refused
      ensures Step(old(State()), if ok then DialplanSteps.Rename(k, name, hit) else Refused, State())
    {
      ghost var s := State();
      RerenderedNone(s);
      if k !in flat || name == "" || refused { return false; }
      var context := CtxOf(nodes, k);
      SetName(k, name, hit);
      Publish(s, DialplanSteps.Rename(k, name, hit), context);
      return true;
    }

    /** The updates of a regex, an action, an anti-action, a condition, and the continue switch of an extension. */
    method Update(k: Key, payload: Payload, refused: bool) returns (ok: bool)
      requires Tied(State()) && k.kind != Ctx
      modifies this
      ensures Tied(State())
      ensures ok <==> k in old(flat) && !refused
      ensures Step(old(State()), if ok then DialplanSteps.Update(k, payload) else Refused, State())
    {
      ghost var s := State();
      RerenderedNone(s);
      if k !in flat || refused { return false; }
      var p := payload;
      if k.kind == Cond {
        p := Normalised(p);
      }
      var context := CtxOf(nodes, k);
      rows := rows[k := rows[k].(payload := p)];
      nodes := nodes[k := nodes[k].(payload := p)];
      Publish(s, DialplanSteps.Update(k, payload), context);
      return true;
    }

    method Switch(k: Key, on: bool, refused: bool) returns (ok: bool)
      requires Tied(State()) && Rank(k.kind) >= 2
      modifies this
      ensures Tied(State())
      ensures ok <==> k in old(flat) && !refused
      ensures Step(old(State()), if ok then DialplanSteps.Switch(k, on) else Refused, State())
    {
      ghost var s := State();
      RerenderedNone(s);
      if k !in flat || refused { return false; }
      var context := CtxOf(nodes, k);
      rows := rows[k := SwitchedRow(rows[k], k.kind, on)];
      nodes := nodes[k := nodes[k].(enabled := on)];
      Publish(s, DialplanSteps.Switch(k, on), context);
      return true;
    }

    /** The loop over the siblings; `nodes[k]` itself is written last. */
    method Replay(k: Key, n: int)
      requires Shaped(nodes, nested) && k in nodes && k in Kids(nested, nodes[k].parent)
      modifies this`nodes
      ensures nodes == MovedNodes(old(nodes), k, n, Kids(nested, old(nodes)[k].parent))
    {
      ghost var start := nodes;
      var siblings := OfKind(Kids(nested, nodes[k].parent), k.kind);
      SiblingsAreKids(start, nested, k, siblings);
      ghost var goal := MovedNodes(start, k, n, Kids(nested, start[k].parent));
      var todo := siblings;
      while todo != {}
        invariant todo <= siblings && nodes.Keys == start.Keys && nodes[k] == start[k]
        invariant forall j :: j in start && j != k ==>
                    nodes[j] == if j in siblings && j !in todo then goal[j] else start[j]
        decreases todo
      {
        var j := Pick(todo);
        todo := todo - {j};
        var v, moved := nodes[j].position, nodes[k].position;
        if moved > n {
          if v >= n && v < moved {
            nodes := nodes[j := nodes[j].(position := v + 1)];
          }
        } else if v > moved && v <= n {
          nodes := nodes[j := nodes[j].(position := v - 1)];
        }
      }
      nodes := nodes[k := nodes[k].(position := n)];
      assert forall j :: j in start ==> nodes[j] == goal[j];
    }

    /** The transaction on the table of the kind, with the constraint checked after every row. */
    method MoveRows(k: Key, position: int, n: int, faults: set<nat>) returns (ok: bool)
      requires k in rows
      modifies this`rows
      ensures ok ==> rows == MovedRows(old(rows), k, position, n) && StaysDistinct(old(rows), k, position, n)
      ensures !ok ==> rows == old(rows)
      ensures faults == {} && Permitted(old(rows), k, position, n) ==> ok
    {
      var table := new OT.OrderedTable(Enforced(k.kind));
      table.rows := TableOf(rows, k.kind);
      RunKeepsParents(MoveOf(rows, k, position, n), TableOf(rows, k.kind));
      ok := table.MoveRows(k.id, position, rows[k].parent.id, n, faults);
      if ok {
        ghost var before := rows;
        rows := WithTable(rows, k.kind, table.rows);
        WithTableIs(before, k.kind, table.rows, TableOf(before, k.kind));
      }
    }

    /** The rows, and then the objects. */
    method Reorder(k: Key, n: int, faults: set<nat>) returns (ok: bool)
      requires Tied(State()) && k in flat && Ordered(k.kind)
      modifies this`rows, this`nodes
      ensures k in old(rows) && k in old(nodes)
      ensures ok ==> StaysDistinct(old(rows), k, old(nodes)[k].position, n)
      ensures State() == if ok then Reordered(old(State()), k, n) else old(State())
      ensures faults == {} && Permitted(old(rows), k, old(nodes)[k].position, n) ==> ok
    {
      TiedItem(State(), k);
      ok := MoveRows(k, nodes[k].position, n, faults);
      if ok {
        Replay(k, n);
      }
    }

    /** MoveContextExtension, MoveContextCondition, MoveContextAction, MoveContextAntiAction, for every target and any
        positions in tables and objects. */
    method Move(k: Key, n: int, faults: set<nat>) returns (ok: bool)
      requires Tied(State()) && Ordered(k.kind)
      modifies this
      ensures Tied(State())
      ensures ok ==> k in old(flat) && n != 0
      ensures k in old(flat) ==> k in old(nodes) && k in old(rows)
      ensures faults == {} && n != 0 && k in old(flat) && Permitted(old(rows), k, old(nodes)[k].position, n) ==> ok
      ensures Step(old(State()), if ok then DialplanSteps.Move(k, n) else Refused, State())
    {
      ghost var s := State();
      RerenderedNone(s);
      if k !in flat || n == 0 { return false; }
      var context := CtxOf(nodes, k);
      ok := Reorder(k, n, faults);
      if !ok { return; }
      Publish(s, DialplanSteps.Move(k, n), context);
    }

    method SwitchNoProceed(on: bool, refused: bool) returns (ok: bool)
      requires Tied(State())
      modifies this
      ensures Tied(State())
      ensures ok <==> !refused
      ensures Step(old(State()), if ok then SetNoProceed(on) else Refused, State())
    {
      ghost var s := State();
      RerenderedNone(s);
      if refused { return false; }
      EditTied(s, SetNoProceed(on));
      noProceed := on;
      RerenderedNone(State());
      if !on { return true; }
      CacheAll(OfKind(flat, Ctx));
      assert OfKind(flat, Ctx) == Affected(s, SetNoProceed(on));
      return true;
    }

    method CacheAll(contexts: set<Key>)
      requires noProceed
      modifies this`docs
      ensures RenderedDocs(nodes, nested, old(docs), contexts, docs)
    {
      var todo := contexts;
      ghost var done := {};
      while todo != {}
        invariant todo !! done && todo + done == contexts
        invariant RenderedDocs(nodes, nested, old(docs), done, docs)
        decreases todo
      {
        var c := Pick(todo);
        ghost var mid := docs;
        CacheFullXML(c);
        RenderedMore(nodes, nested, old(docs), done, mid, c, docs[c]);
        todo, done := todo - {c}, done + {c};
      }
      assert done == contexts;
    }
  }

  lemma SiblingsAreKids(nodes: Nodes, nested: Nested, k: Key, siblings: set<Key>)
    requires Shaped(nodes, nested) && k in nodes && siblings == OfKind(Kids(nested, nodes[k].parent), k.kind)
    ensures forall j :: j in siblings ==> j in nodes && nodes[j].parent == nodes[k].parent
  {
    forall j | j in siblings ensures j in nodes && nodes[j].parent == nodes[k].parent {
      assert IsKid(nodes, nodes[k].parent, j);
    }
  }

  /** Putting a moved table back and reading it again gives that table. */
  lemma WithTableIs(rows: Nodes, kind: Kind, t: MP.Table, before: MP.Table)
    requires before == TableOf(rows, kind) && t.Keys == before.Keys
    requires forall i :: i in t ==> t[i].parent == before[i].parent
    ensures TableOf(WithTable(rows, kind, t), kind) == t
  {
  }
}
