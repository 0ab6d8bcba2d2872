/** What the list views and documents of the dialplan show after a create, an update and a move. */
module DialplanViews {
  import opened DialplanSteps
  import opened DialplanStore
  import opened DialplanTables
  import opened DialplanTree
  import opened Positions

  // ----- a created item comes last -----

  lemma SnocSorted(v: seq<Key>, nodes: Nodes, s: set<Key>, k: Key)
    requires IsSorted(v, nodes, s) && k in nodes && k !in s
    requires forall j :: j in s ==> nodes[j].position < nodes[k].position
    ensures IsSorted(v + [k], nodes, s + {k})
  {
    forall a | 0 <= a < |v| ensures v[a] in s && v[a] != k {
      assert v[a] in v;
    }
  }

  /** A new item is shown after all its siblings. */
  lemma AddIsLast(s: Cache, k: Key, node: Node)
    requires Linked(s) && Accepted(s, Add(k, node)) && Ordered(k.kind)
    ensures var t := Edited(s, Add(k, node));
            View(t.nodes, t.nested, node.parent, k.kind) == View(s.nodes, s.nested, node.parent, k.kind) + [k]
  {
    var t := Edited(s, Add(k, node));
    var before, after := EnabledKids(s.nodes, s.nested, node.parent, k.kind),
        EnabledKids(t.nodes, t.nested, node.parent, k.kind);
    LinkedKids(s.nested, node.parent, k, node.parent);
    assert after == before + {k};
    forall j | j in before ensures j in t.nodes && t.nodes[j] == s.nodes[j] && t.nodes[j].position < node.position {
      assert IsKid(s.nodes, node.parent, j) && RowAgrees(s.nodes, s.rows, j);
    }
    var v := View(s.nodes, s.nested, node.parent, k.kind);
    SortedTransfers(v, s.nodes, t.nodes, before);
    SnocSorted(v, t.nodes, before, k);
    AddKeepsLinks(s, k, node);
    ViewIs(t.nodes, t.nested, node.parent, k.kind, v + [k]);
  }

  // ----- a moved item -----

  function PositionsOf(nodes: Nodes, s: set<Key>): Positioning<Key>
    requires s <= nodes.Keys
  {
    map k | k in s :: nodes[k].position
  }

  lemma SortedIsView(v: seq<Key>, nodes: Nodes, s: set<Key>)
    requires s <= nodes.Keys && Apart(nodes, s)
    ensures IsSorted(v, nodes, s) <==> IsView(v, PositionsOf(nodes, s))
  {
    if IsSorted(v, nodes, s) {
      forall a, b | 0 <= a < b < |v| ensures nodes[v[a]].position < nodes[v[b]].position {
        assert v[a] in v && v[b] in v;
      }
    }
    if IsView(v, PositionsOf(nodes, s)) {
      forall a | 0 <= a < |v| ensures v[a] in s {
        assert v[a] in v;
      }
    }
  }

  lemma KidsAreApart(nodes: Nodes, nested: Nested, p: Key, kind: Kind)
    requires SiblingsApart(nodes, nested) && Ordered(kind)
    ensures Apart(nodes, EnabledKids(nodes, nested, p, kind))
  {
    var kids := EnabledKids(nodes, nested, p, kind);
    assert KidsApart(nodes, Kids(nested, p));
    forall i, j | i in kids && j in kids && i != j ensures nodes[i].position != nodes[j].position {
      assert PairApart(nodes, i, j);
    }
  }

  lemma ViewIsView(nodes: Nodes, nested: Nested, p: Key, kind: Kind)
    requires SiblingsApart(nodes, nested) && Ordered(kind)
    ensures Apart(nodes, EnabledKids(nodes, nested, p, kind))
    ensures IsView(View(nodes, nested, p, kind), PositionsOf(nodes, EnabledKids(nodes, nested, p, kind)))
  {
    KidsAreApart(nodes, nested, p, kind);
    SortedIsView(View(nodes, nested, p, kind), nodes, EnabledKids(nodes, nested, p, kind));
  }

  lemma MovedPositionsOf(nodes: Nodes, nodes': Nodes, k: Key, n: int, kids: set<Key>)
    requires k in kids && kids <= nodes.Keys && kids <= nodes'.Keys && Apart(nodes, kids)
    requires forall j :: j in kids ==>
               nodes'[j].position == if j == k then n else Beside(nodes[k].position, n, nodes[j].position)
    ensures PositionsOf(nodes', kids) == MovedPositions(PositionsOf(nodes, kids), k, n)
  {
  }

  lemma RebuiltView(pos: Positioning<Key>, v: seq<Key>, k: Key, n: int, w: seq<Key>)
    requires IsView(v, pos) && k in pos && 1 <= n <= |v| && IsView(w, MovedPositions(pos, k, n))
    requires forall a :: 0 <= a < |v| ==> v[a] in pos && pos[v[a]] == a + 1
    ensures 1 <= pos[k] <= |v| && w == InsertAt(RemoveAt(v, pos[k] - 1), n - 1, k)
  {
    MoveIsRemoveThenInsert(v, pos, k, n, w);
  }

  lemma EditedMove(s: Cache, k: Key, n: int, t: Cache)
    requires Tied(s) && k in s.flat && Ordered(k.kind) && t == Edited(s, Move(k, n))
    ensures k in s.nodes && k in Kids(s.nested, s.nodes[k].parent)
    ensures t.nodes == MovedNodes(s.nodes, k, n, Kids(s.nested, s.nodes[k].parent)) && t.nested == s.nested
  {
    TiedItem(s, k);
  }

  /** When all siblings are shown and stand at 1 to N, a move takes the item out at its place and puts it in at n. */
  lemma MoveSeenThroughView(s: Cache, k: Key, n: int, t: Cache, p: Key, v: seq<Key>)
    requires Tied(s) && SiblingsApart(s.nodes, s.nested) && k in s.flat && Ordered(k.kind) && t == Edited(s, Move(k, n))
    requires k in s.nodes && s.nodes[k].enabled && p == s.nodes[k].parent
    requires v == View(s.nodes, s.nested, p, k.kind) && 1 <= n <= |v| && Numbered(s.nodes, v)
    ensures 1 <= s.nodes[k].position <= |v|
    ensures View(t.nodes, t.nested, p, k.kind) == InsertAt(RemoveAt(v, s.nodes[k].position - 1), n - 1, k)
  {
    EditedMove(s, k, n, t);
    MoveApart(s.nodes, s.nested, k, n);
    MoveSeen(s.nodes, s.nested, k, n, t.nodes, p, v);
  }

  /** The shown items stand at 1 to N. */
  ghost predicate Numbered(nodes: Nodes, v: seq<Key>) {
    forall a :: 0 <= a < |v| ==> v[a] in nodes && nodes[v[a]].position == a + 1
  }

  lemma SeenMoved(nodes: Nodes, nodes': Nodes, kids: set<Key>, v: seq<Key>, w: seq<Key>, k: Key, n: int)
    requires kids <= nodes.Keys && kids <= nodes'.Keys && k in kids && 1 <= n <= |v| && Numbered(nodes, v)
    requires IsView(v, PositionsOf(nodes, kids)) && IsView(w, PositionsOf(nodes', kids))
    requires PositionsOf(nodes', kids) == MovedPositions(PositionsOf(nodes, kids), k, n)
    ensures 1 <= nodes[k].position <= |v| && w == InsertAt(RemoveAt(v, nodes[k].position - 1), n - 1, k)
  {
    forall a | 0 <= a < |v| ensures v[a] in kids {
      assert v[a] in v;
    }
    RebuiltView(PositionsOf(nodes, kids), v, k, n, w);
  }

  lemma MoveSeen(nodes: Nodes, nested: Nested, k: Key, n: int, nodes': Nodes, p: Key, v: seq<Key>)
    requires Shaped(nodes, nested) && SiblingsApart(nodes, nested) && SiblingsApart(nodes', nested)
    requires k in nodes && Ordered(k.kind) && p == nodes[k].parent && k in Kids(nested, p) && nodes[k].enabled
    requires nodes' == MovedNodes(nodes, k, n, Kids(nested, p))
    requires v == View(nodes, nested, p, k.kind) && 1 <= n <= |v| && Numbered(nodes, v)
    ensures 1 <= nodes[k].position <= |v|
    ensures View(nodes', nested, p, k.kind) == InsertAt(RemoveAt(v, nodes[k].position - 1), n - 1, k)
  {
    var kids := EnabledKids(nodes, nested, p, k.kind);
    ViewIsView(nodes, nested, p, k.kind);
    ViewIsView(nodes', nested, p, k.kind);
    MovedKids(nodes, nested, k, n);
    MovedPositionsOf(nodes, nodes', k, n, kids);
    SeenMoved(nodes, nodes', kids, v, View(nodes', nested, p, k.kind), k, n);
  }

  lemma MovedKids(nodes: Nodes, nested: Nested, k: Key, n: int)
    requires Shaped(nodes, nested) && k in nodes && k.kind != Ctx
    ensures var p := nodes[k].parent;
            var nodes' := MovedNodes(nodes, k, n, Kids(nested, p));
            && EnabledKids(nodes', nested, p, k.kind) == EnabledKids(nodes, nested, p, k.kind)
            && forall j :: j in EnabledKids(nodes, nested, p, k.kind) ==>
                 nodes'[j].position == if j == k then n else Beside(nodes[k].position, n, nodes[j].position)
  {
    var p := nodes[k].parent;
    forall j | j in Kids(nested, p) ensures IsKid(nodes, p, j) {
    }
  }

  /** Also with gaps and hidden siblings: the others are shown in the same order as before. */
  lemma MoveKeepsOthers(s: Cache, k: Key, n: int, t: Cache)
    requires Tied(s) && SiblingsApart(s.nodes, s.nested) && k in s.flat && Ordered(k.kind) && t == Edited(s, Move(k, n))
    requires k in s.nodes
    ensures var others := EnabledKids(s.nodes, s.nested, s.nodes[k].parent, k.kind) - {k};
            others <= t.nodes.Keys && forall v :: IsSorted(v, s.nodes, others) <==> IsSorted(v, t.nodes, others)
  {
    EditedMove(s, k, n, t);
    OthersInOrder(s.nodes, s.nested, k, n, t.nodes);
  }

  lemma OthersInOrder(nodes: Nodes, nested: Nested, k: Key, n: int, nodes': Nodes)
    requires Shaped(nodes, nested) && SiblingsApart(nodes, nested) && Ordered(k.kind)
    requires k in nodes && k in Kids(nested, nodes[k].parent)
    requires nodes' == MovedNodes(nodes, k, n, Kids(nested, nodes[k].parent))
    ensures var others := EnabledKids(nodes, nested, nodes[k].parent, k.kind) - {k};
            others <= nodes'.Keys && forall v :: IsSorted(v, nodes, others) <==> IsSorted(v, nodes', others)
  {
    var p := nodes[k].parent;
    var others := EnabledKids(nodes, nested, p, k.kind) - {k};
    MovedKids(nodes, nested, k, n);
    assert KidsApart(nodes, Kids(nested, p));
    forall i, j | i in others && j in others
      ensures nodes[i].position <= nodes[j].position <==> nodes'[i].position <= nodes'[j].position
    {
      assert PairApart(nodes, i, k) && PairApart(nodes, j, k);
      MoveKeepsOthersInOrder(nodes[k].position, n, nodes[j].position, nodes[i].position);
    }
    forall v ensures IsSorted(v, nodes, others) <==> IsSorted(v, nodes', others) {
      SortedTransfers(v, nodes, nodes', others);
      SortedTransfers(v, nodes', nodes, others);
    }
  }

  lemma SortedTransfers(v: seq<Key>, nodes: Nodes, nodes': Nodes, s: set<Key>)
    requires s <= nodes.Keys && s <= nodes'.Keys
    requires forall i, j :: i in s && j in s ==>
               (nodes[i].position <= nodes[j].position <==> nodes'[i].position <= nodes'[j].position)
    ensures IsSorted(v, nodes, s) ==> IsSorted(v, nodes', s)
  {
    if IsSorted(v, nodes, s) {
      forall a | 0 <= a < |v| ensures v[a] in s {
        assert v[a] in v;
      }
    }
  }

  // ----- what is written -----

  /** The stored document shows every field of a condition but the day of the month. */
  lemma ShownIff(p: Payload, q: Payload)
    requires p.ConditionFields? && q.ConditionFields?
    ensures Shown(p) == Shown(q) <==> p == q.(schedule := q.schedule.(mday := p.schedule.mday))
  {
  }
}
