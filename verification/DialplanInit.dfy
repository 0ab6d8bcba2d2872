/** Loading the dialplan cache from its six tables: nested loops over contexts, extensions and conditions. */
module DialplanInit {
  import opened AnyOrder
  import opened DialplanRuns
  import opened DialplanSteps
  import opened DialplanStore
  import opened DialplanTree

  /** The reference of a row resolves. */
  predicate RowHolds(rows: Nodes, j: Key) {
    j in rows && j.kind != Ctx ==> rows[j].parent in rows && rows[j].parent.kind == ParentKind(j.kind)
  }

  /** What the foreign keys of the six tables guarantee; positions may be equal, and need not be positive. */
  ghost predicate Referenced(rows: Nodes) {
    forall j {:trigger RowHolds(rows, j)} :: RowHolds(rows, j)
  }

  predicate RowsDiffer(rows: Nodes, i: Key, j: Key) {
    i in rows && j in rows && rows[i].parent == rows[j].parent ==> PairApart(rows, i, j)
  }

  /** Ordered siblings stand at different positive positions. */
  ghost predicate WellPlaced(rows: Nodes) {
    && (forall i, j {:trigger RowsDiffer(rows, i, j)} :: RowsDiffer(rows, i, j))
    && PositiveNodes(rows)
  }

  /** A cached item is its row, and its cached parent holds it. */
  predicate ItemLoaded(rows: Nodes, nodes: Nodes, nested: Nested, j: Key) {
    j in nodes ==>
      j in rows && nodes[j] == rows[j] &&
          (j.kind != Ctx ==> nodes[j].parent in nodes && j in Kids(nested, nodes[j].parent))
  }

  predicate KidLoaded(nodes: Nodes, nested: Nested, h: Key, j: Key) {
    j in Kids(nested, h) ==> IsKid(nodes, h, j)
  }

  /** A part of the tables is cached: closed under parents, and the nested maps hold exactly the cached children. */
  ghost predicate Loaded(rows: Nodes, nodes: Nodes, nested: Nested, flat: set<Key>) {
    && (forall j {:trigger ItemLoaded(rows, nodes, nested, j)} :: ItemLoaded(rows, nodes, nested, j))
    && (forall h, j {:trigger KidLoaded(nodes, nested, h, j)} :: KidLoaded(nodes, nested, h, j))
    && flat == nodes.Keys
  }

  function RowsUnder(rows: Nodes, p: Key, kind: Kind): (s: set<Key>)
    ensures forall j :: j in s <==> j in rows && j.kind == kind && rows[j].parent == p
  {
    set j | j in rows && j.kind == kind && rows[j].parent == p
  }

  /** All rows strictly below one of `hs`. */
  ghost function Below(rows: Nodes, hs: set<Key>): (s: set<Key>)
    ensures forall j :: j in s <==> j in rows && IsBelow(rows, hs, j)
  {
    set j | j in rows && IsBelow(rows, hs, j)
  }

  ghost predicate IsBelow(rows: Nodes, hs: set<Key>, j: Key) {
    exists h :: h in hs && h != j && Under(rows, j, h)
  }

  lemma LoadOne(rows: Nodes, nodes: Nodes, nested: Nested, flat: set<Key>, j: Key)
    requires Referenced(rows) && Loaded(rows, nodes, nested, flat) && j in rows && j !in nodes && j.kind != Ctx
    requires rows[j].parent in nodes
    ensures var p := rows[j].parent;
            Loaded(rows, nodes[j := rows[j]], nested[p := Kids(nested, p) + {j}], flat + {j})
  {
    var p := rows[j].parent;
    var nodes', nested' := nodes[j := rows[j]], nested[p := Kids(nested, p) + {j}];
    assert RowHolds(rows, j);
    forall h, i ensures KidLoaded(nodes', nested', h, i) {
      assert KidLoaded(nodes, nested, h, i);
    }
    forall i ensures ItemLoaded(rows, nodes', nested', i) {
      assert ItemLoaded(rows, nodes, nested, i);
    }
  }

  /** GetContextExtensions, GetExtensionConditions, GetConditionRegexes, GetConditionActions,
      GetConditionAntiActions. */
  method LoadKids(d: Dialplans, p: Key, kind: Kind)
    requires Referenced(d.rows) && Loaded(d.rows, d.nodes, d.nested, d.flat) && p in d.nodes && kind != Ctx
    modifies d`nodes, d`nested, d`flat
    ensures Loaded(d.rows, d.nodes, d.nested, d.flat)
    ensures d.nodes.Keys == old(d.nodes.Keys) + RowsUnder(d.rows, p, kind)
  {
    var all := RowsUnder(d.rows, p, kind);
    var todo := all;
    while todo != {}
      invariant todo <= all && p in d.nodes && Loaded(d.rows, d.nodes, d.nested, d.flat)
      invariant d.nodes.Keys == old(d.nodes.Keys) + (all - todo)
      decreases todo
    {
      var j := Pick(todo);
      todo := todo - {j};
      if j !in d.nodes {
        LoadOne(d.rows, d.nodes, d.nested, d.flat, j);
        d.nodes := d.nodes[j := d.rows[j]];
        d.nested := d.nested[p := Kids(d.nested, p) + {j}];
        d.flat := d.flat + {j};
      }
    }
  }

  lemma {:induction false} BelowKids(rows: Nodes, p: Key, j: Key)
    requires Referenced(rows) && j in rows && p in rows && j != p
    ensures Under(rows, j, p) <==> exists h :: h in rows && h.kind != Ctx && rows[h].parent == p && Under(rows, j, h)
    decreases Rank(j.kind)
  {
    assert RowHolds(rows, j);
    if j.kind != Ctx {
      var q := rows[j].parent;
      if q == p {
        assert Under(rows, j, j);
      } else {
        BelowKids(rows, p, q);
        if Under(rows, q, p) {
          var h :| h in rows && h.kind != Ctx && rows[h].parent == p && Under(rows, q, h);
          assert Under(rows, j, h);
        }
        if h :| h in rows && h.kind != Ctx && rows[h].parent == p && Under(rows, j, h) {
          assert h != j;
          assert Under(rows, q, h);
        }
      }
    }
  }

  /** What lies below `p` is its children and what lies below them. */
  lemma BelowOne(rows: Nodes, p: Key, kids: set<Key>)
    requires Referenced(rows) && p in rows
    requires forall h :: h in kids <==> h in rows && h.kind != Ctx && rows[h].parent == p
    ensures Below(rows, {p}) == kids + Below(rows, kids)
  {
    forall j | j in rows ensures j in Below(rows, {p}) <==> j in kids || IsBelow(rows, kids, j) {
      if j != p { BelowKids(rows, p, j); }
      else { NotBelowItself(rows, p, kids); }
    }
  }

  lemma {:induction false} UnderRank(rows: Nodes, j: Key, h: Key)
    requires Referenced(rows) && j in rows && Under(rows, j, h) && j != h
    ensures Rank(h.kind) < Rank(j.kind)
    decreases Rank(j.kind)
  {
    assert RowHolds(rows, j);
    var q := rows[j].parent;
    if q != h { UnderRank(rows, q, h); }
  }

  lemma NotBelowItself(rows: Nodes, p: Key, kids: set<Key>)
    requires Referenced(rows) && p in rows
    requires forall h :: h in kids <==> h in rows && h.kind != Ctx && rows[h].parent == p
    ensures p !in kids && !IsBelow(rows, kids, p)
  {
    assert RowHolds(rows, p);
    if h :| h in kids && Under(rows, p, h) {
      assert RowHolds(rows, h);
      assert Rank(p.kind) < Rank(h.kind);
      if p != h { UnderRank(rows, p, h); }
    }
  }

  lemma BelowMore(rows: Nodes, hs: set<Key>, h: Key)
    ensures Below(rows, hs + {h}) == Below(rows, hs) + Below(rows, {h})
  {
    forall j | j in rows ensures IsBelow(rows, hs + {h}, j) <==> IsBelow(rows, hs, j) || IsBelow(rows, {h}, j) {
      if IsBelow(rows, hs + {h}, j) {
        var x :| x in hs + {h} && x != j && Under(rows, j, x);
        assert x in hs || x in {h};
      }
      if IsBelow(rows, hs, j) {
        var x :| x in hs && x != j && Under(rows, j, x);
        assert x in hs + {h};
      }
      if IsBelow(rows, {h}, j) {
        assert h in hs + {h};
      }
    }
  }

  lemma LeavesHaveNoneBelow(rows: Nodes, kids: set<Key>)
    requires Referenced(rows) && forall h :: h in kids ==> h in rows && Rank(h.kind) == 3
    ensures Below(rows, kids) == {}
  {
    forall j | j in rows ensures !IsBelow(rows, kids, j) {
      if h :| h in kids && h != j && Under(rows, j, h) { UnderRank(rows, j, h); }
    }
  }

  lemma BelowCondition(rows: Nodes, k: Key)
    requires Referenced(rows) && k in rows && k.kind == Cond
    ensures Below(rows, {k}) == RowsUnder(rows, k, Regex) + RowsUnder(rows, k, Act) + RowsUnder(rows, k, Anti)
  {
    var kids := RowsUnder(rows, k, Regex) + RowsUnder(rows, k, Act) + RowsUnder(rows, k, Anti);
    forall h | h in rows && h.kind != Ctx && rows[h].parent == k ensures h in kids {
      assert RowHolds(rows, h);
    }
    BelowOne(rows, k, kids);
    LeavesHaveNoneBelow(rows, kids);
  }

  lemma BelowHolder(rows: Nodes, k: Key, kind: Kind)
    requires Referenced(rows) && k in rows && Rank(k.kind) < 2 && kind == if k.kind == Ctx then Ext else Cond
    ensures Below(rows, {k}) == RowsUnder(rows, k, kind) + Below(rows, RowsUnder(rows, k, kind))
  {
    forall h | h in rows && h.kind != Ctx && rows[h].parent == k ensures h.kind == kind {
      assert RowHolds(rows, h);
    }
    BelowOne(rows, k, RowsUnder(rows, k, kind));
  }

  lemma BelowNone(rows: Nodes)
    ensures Below(rows, {}) == {}
  {
  }

  lemma Grown(start: set<Key>, before: set<Key>, more: set<Key>)
    ensures start + before + more == start + (before + more)
  {
  }

  method LoadCondition(d: Dialplans, k: Key)
    requires Referenced(d.rows) && Loaded(d.rows, d.nodes, d.nested, d.flat) && k in d.nodes && k.kind == Cond
    modifies d`nodes, d`nested, d`flat
    ensures Loaded(d.rows, d.nodes, d.nested, d.flat)
    ensures d.nodes.Keys == old(d.nodes.Keys) + Below(d.rows, {k})
  {
    assert ItemLoaded(d.rows, d.nodes, d.nested, k);
    LoadKids(d, k, Regex);
    LoadKids(d, k, Act);
    LoadKids(d, k, Anti);
    BelowCondition(d.rows, k);
  }

  method LoadExtension(d: Dialplans, k: Key)
    requires Referenced(d.rows) && Loaded(d.rows, d.nodes, d.nested, d.flat) && k in d.nodes && k.kind == Ext
    modifies d`nodes, d`nested, d`flat
    ensures Loaded(d.rows, d.nodes, d.nested, d.flat)
    ensures d.nodes.Keys == old(d.nodes.Keys) + Below(d.rows, {k})
  {
    assert ItemLoaded(d.rows, d.nodes, d.nested, k);
    LoadKids(d, k, Cond);
    var todo := RowsUnder(d.rows, k, Cond);
    ghost var start, done := d.nodes.Keys, {};
    BelowNone(d.rows);
    BelowHolder(d.rows, k, Cond);
    while todo != {}
      invariant todo + done == RowsUnder(d.rows, k, Cond) <= start && todo !! done
      invariant d.nodes.Keys == start + Below(d.rows, done)
      invariant Loaded(d.rows, d.nodes, d.nested, d.flat)
      decreases todo
    {
      var c := Pick(todo);
      LoadCondition(d, c);
      BelowMore(d.rows, done, c);
      Grown(start, Below(d.rows, done), Below(d.rows, {c}));
      todo, done := todo - {c}, done + {c};
    }
  }

  method LoadContext(d: Dialplans, k: Key)
    requires Referenced(d.rows) && Loaded(d.rows, d.nodes, d.nested, d.flat) && k in d.nodes && k.kind == Ctx
    modifies d`nodes, d`nested, d`flat
    ensures Loaded(d.rows, d.nodes, d.nested, d.flat)
    ensures d.nodes.Keys == old(d.nodes.Keys) + Below(d.rows, {k})
  {
    assert ItemLoaded(d.rows, d.nodes, d.nested, k);
    LoadKids(d, k, Ext);
    var todo := RowsUnder(d.rows, k, Ext);
    ghost var start, done := d.nodes.Keys, {};
    BelowNone(d.rows);
    BelowHolder(d.rows, k, Ext);
    while todo != {}
      invariant todo + done == RowsUnder(d.rows, k, Ext) <= start && todo !! done
      invariant d.nodes.Keys == start + Below(d.rows, done)
      invariant Loaded(d.rows, d.nodes, d.nested, d.flat)
      decreases todo
    {
      var e := Pick(todo);
      LoadExtension(d, e);
      BelowMore(d.rows, done, e);
      Grown(start, Below(d.rows, done), Below(d.rows, {e}));
      todo, done := todo - {e}, done + {e};
    }
  }

  lemma LoadedIsShaped(rows: Nodes, nodes: Nodes, nested: Nested, flat: set<Key>)
    requires Referenced(rows) && Loaded(rows, nodes, nested, flat)
    ensures Shaped(nodes, nested) && Flattened(nodes, nested, flat)
  {
    forall j | j in flat ensures Held(nodes, nested, flat, j) {
      assert ItemLoaded(rows, nodes, nested, j);
    }
    forall j | j in nodes ensures RowHolds(rows, j) && ItemLoaded(rows, nodes, nested, j) {
    }
    forall h, j | j in Kids(nested, h) ensures IsKid(nodes, h, j) && j in flat {
      assert KidLoaded(nodes, nested, h, j);
    }
  }

  /** Once everything is cached, cached siblings are apart exactly when the rows are. */
  lemma PlacedIff(rows: Nodes, nested: Nested, flat: set<Key>)
    requires Referenced(rows) && Loaded(rows, rows, nested, flat)
    ensures SiblingsApart(rows, nested) && PositiveNodes(rows) <==> WellPlaced(rows)
  {
    if WellPlaced(rows) {
      forall h ensures KidsApart(rows, Kids(nested, h)) {
        forall i, j | i in Kids(nested, h) && j in Kids(nested, h) ensures PairApart(rows, i, j) {
          assert KidLoaded(rows, nested, h, i) && KidLoaded(rows, nested, h, j) && RowsDiffer(rows, i, j);
        }
      }
    }
    if SiblingsApart(rows, nested) && PositiveNodes(rows) {
      forall i, j ensures RowsDiffer(rows, i, j) {
        RowsAsKids(rows, nested, flat, i, j);
      }
    }
  }

  lemma RowsAsKids(rows: Nodes, nested: Nested, flat: set<Key>, i: Key, j: Key)
    requires Loaded(rows, rows, nested, flat) && SiblingsApart(rows, nested)
    ensures RowsDiffer(rows, i, j)
  {
    if i in rows && j in rows && rows[i].parent == rows[j].parent && i.kind != Ctx && j.kind != Ctx {
      assert ItemLoaded(rows, rows, nested, i) && ItemLoaded(rows, rows, nested, j);
      assert KidsApart(rows, Kids(nested, rows[i].parent));
      assert PairApart(rows, i, j);
    }
  }

  lemma {:induction false} ContextOfLoaded(rows: Nodes, nodes: Nodes, nested: Nested, flat: set<Key>, k: Key, c: Key)
    requires Referenced(rows) && Loaded(rows, nodes, nested, flat) && k in nodes && c.kind == Ctx && Under(rows, k, c)
    ensures CtxOf(nodes, k) == c
    decreases Rank(k.kind)
  {
    if k != c {
      assert ItemLoaded(rows, nodes, nested, k) && RowHolds(rows, k);
      ContextOfLoaded(rows, nodes, nested, flat, rows[k].parent, c);
    }
  }

  lemma NotBelowOutside(rows: Nodes, c: Key, k: Key, j: Key)
    requires Referenced(rows) && j in rows && j.kind != Ctx && rows[j].parent == k && k !in {c} + Below(rows, {c})
    requires c.kind == Ctx
    ensures j !in Below(rows, {c})
  {
    assert RowHolds(rows, j);
    assert Under(rows, j, c) ==> Under(rows, k, c);
  }

  /** Loading one context leaves the documents of the others right. */
  lemma OthersKeepTheirDocument(rows: Nodes, nodes: Nodes, nested: Nested, flat: set<Key>, nodes': Nodes,
      nested': Nested, flat': set<Key>, c: Key, o: Key, doc: Doc)
    requires Referenced(rows) && Loaded(rows, nodes, nested, flat) && Loaded(rows, nodes', nested', flat')
    requires c.kind == Ctx && o.kind == Ctx && c != o && c in nodes && o in nodes
    requires nodes'.Keys == nodes.Keys + Below(rows, {c})
    requires Shows(nodes, nested, o, doc)
    ensures Shows(nodes', nested', o, doc)
  {
    LoadedIsShaped(rows, nodes, nested, flat);
    var changed := {c} + Below(rows, {c});
    forall k | k !in changed ensures SameHere(nodes, nested, nodes', nested', k) {
      assert ItemLoaded(rows, nodes', nested', k) && ItemLoaded(rows, nodes, nested, k);
      forall j ensures j in Kids(nested, k) <==> j in Kids(nested', k) {
        if j in Kids(nested, k) {
          assert KidLoaded(nodes, nested, k, j) && ItemLoaded(rows, nodes, nested, j) &&
              ItemLoaded(rows, nodes', nested', j);
        }
        if j in Kids(nested', k) {
          assert KidLoaded(nodes', nested', k, j) && ItemLoaded(rows, nodes', nested', j) &&
              ItemLoaded(rows, nodes, nested, j);
          NotBelowOutside(rows, c, k, j);
        }
      }
    }
    forall k | k in changed && k in nodes ensures CtxOf(nodes, k) == c {
      ContextOfLoaded(rows, nodes, nested, flat, k, c);
    }
    OthersSameBelow(nodes, nested, nodes', nested', changed, c, o, 3);
    SameShows(nodes, nested, nodes', nested', o, doc);
  }

  lemma {:induction false} EveryRowHasContext(rows: Nodes, k: Key)
    requires Referenced(rows) && k in rows
    ensures CtxOf(rows, k) in rows && CtxOf(rows, k).kind == Ctx && Under(rows, k, CtxOf(rows, k))
    decreases Rank(k.kind)
  {
    if k.kind != Ctx {
      assert RowHolds(rows, k);
      EveryRowHasContext(rows, rows[k].parent);
    }
  }

  lemma AllLoaded(rows: Nodes, contexts: set<Key>)
    requires Referenced(rows) && forall c :: c in contexts <==> c in rows && c.kind == Ctx
    ensures contexts + Below(rows, contexts) == rows.Keys
  {
    forall k | k in rows && k.kind != Ctx ensures IsBelow(rows, contexts, k) {
      EveryRowHasContext(rows, k);
    }
  }

  lemma Initialised(s: Cache, contexts: set<Key>)
    requires Referenced(s.rows) && Loaded(s.rows, s.nodes, s.nested, s.flat)
    requires forall c :: c in contexts <==> c in s.rows && c.kind == Ctx
    requires s.nodes.Keys == contexts + Below(s.rows, contexts)
    requires s.noProceed ==> forall c :: c in contexts ==> DocumentShown(s, c)
    ensures s.nodes == s.rows && s.flat == s.rows.Keys
    ensures Shaped(s.nodes, s.nested) && Flattened(s.nodes, s.nested, s.flat) && Agrees(s.nodes, s.flat, s.rows)
    ensures Documented(s)
  {
    AllLoaded(s.rows, contexts);
    LoadedIsShaped(s.rows, s.nodes, s.nested, s.flat);
    forall j | j in s.rows ensures s.nodes[j] == s.rows[j] {
      assert ItemLoaded(s.rows, s.nodes, s.nested, j);
    }
    assert s.nodes == s.rows;
  }

  lemma GoodIff(s: Cache)
    requires Referenced(s.rows) && s.nodes == s.rows && Loaded(s.rows, s.nodes, s.nested, s.flat) && Documented(s)
    requires Shaped(s.nodes, s.nested) && Flattened(s.nodes, s.nested, s.flat) && Agrees(s.nodes, s.flat, s.rows)
    ensures Good(s) <==> WellPlaced(s.rows)
  {
    PlacedIff(s.rows, s.nested, s.flat);
  }

  /** From any tables whose references resolve the nested loops load every row; all maps, tables and documents agree,
      and the state is one in which every operation keeps them so exactly when ordered siblings have distinct positive
      positions. */
  method InitDialplanCache(d: Dialplans, noProceed: bool)
    requires d.nodes == map[] && d.nested == map[] && d.flat == {} && d.docs == map[] && Referenced(d.rows)
    modifies d
    ensures d.nodes == d.rows == old(d.rows) && d.flat == d.rows.Keys && d.noProceed == noProceed
    ensures Tied(d.State()) && Agrees(d.nodes, d.flat, d.rows) && Documented(d.State())
    ensures Good(d.State()) <==> WellPlaced(d.rows)
  {
    d.noProceed := noProceed;
    var contexts := OfKind(d.rows.Keys, Ctx);
    d.nodes := map c | c in contexts :: d.rows[c];
    d.flat := contexts;
    assert Loaded(d.rows, d.nodes, d.nested, d.flat);
    LoadContexts(d, contexts);
    Initialised(d.State(), contexts);
    AgreesAreTied(d.State());
    GoodIff(d.State());
  }

  method LoadContexts(d: Dialplans, contexts: set<Key>)
    requires Referenced(d.rows) && Loaded(d.rows, d.nodes, d.nested, d.flat) && d.nodes.Keys == contexts
    requires forall c :: c in contexts ==> c.kind == Ctx
    modifies d`nodes, d`nested, d`flat, d`docs
    ensures Loaded(d.rows, d.nodes, d.nested, d.flat)
    ensures d.nodes.Keys == contexts + Below(d.rows, contexts)
    ensures d.noProceed ==> forall c :: c in contexts ==> DocumentShown(d.State(), c)
  {
    var todo := contexts;
    ghost var done := {};
    BelowNone(d.rows);
    while todo != {}
      invariant todo + done == contexts && todo !! done
      invariant Loaded(d.rows, d.nodes, d.nested, d.flat)
      invariant d.nodes.Keys == contexts + Below(d.rows, done)
      invariant d.noProceed ==> forall c :: c in done ==> DocumentShown(d.State(), c)
      decreases todo
    {
      var c := Pick(todo);
      LoadAndCache(d, c, done);
      BelowMore(d.rows, done, c);
      Grown(contexts, Below(d.rows, done), Below(d.rows, {c}));
      todo, done := todo - {c}, done + {c};
    }
  }

  method LoadAndCache(d: Dialplans, c: Key, ghost done: set<Key>)
    requires Referenced(d.rows) && Loaded(d.rows, d.nodes, d.nested, d.flat)
    requires c in d.nodes && c.kind == Ctx && c !in done && forall o :: o in done ==> o in d.nodes && o.kind == Ctx
    requires d.noProceed ==> forall o :: o in done ==> DocumentShown(d.State(), o)
    modifies d`nodes, d`nested, d`flat, d`docs
    ensures Loaded(d.rows, d.nodes, d.nested, d.flat)
    ensures d.nodes.Keys == old(d.nodes.Keys) + Below(d.rows, {c})
    ensures d.noProceed ==> forall o :: o in done + {c} ==> DocumentShown(d.State(), o)
  {
    ghost var s := d.State();
    LoadContext(d, c);
    if d.noProceed {
      forall o | o in done ensures DocumentShown(d.State(), o) {
        assert DocumentShown(s, o);
        OthersKeepTheirDocument(d.rows, s.nodes, s.nested, s.flat, d.nodes, d.nested, d.flat, c, o, s.docs[o]);
      }
    }
    d.CacheFullXML(c);
  }
}
