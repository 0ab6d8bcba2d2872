/** Every edit of the dialplan as one step on tables, cached objects, maps and stored documents, and what all of them
    keep. */
module DialplanSteps {
  import opened DialplanTables
  import opened DialplanTree
  import MP = MoveProgram

  datatype Cache = Cache(
    nodes: Nodes,             // every object ever cached
    nested: Nested,
    flat: set<Key>,           // the six maps by id
    rows: Nodes,              // the six tables
    noProceed: bool,
    docs: map<Key, Doc>)

  // ----- the invariant -----

  /** Links are consistent: a child names its holder as parent, and parents are of the right kind. */
  ghost predicate Shaped(nodes: Nodes, nested: Nested) {
    && (forall k :: k in nodes && k.kind != Ctx ==> nodes[k].parent.kind == ParentKind(k.kind))
    && (forall k, j :: j in Kids(nested, k) ==> IsKid(nodes, k, j))
  }

  predicate IsKid(nodes: Nodes, k: Key, j: Key) {
    j in nodes && j.kind != Ctx && nodes[j].parent == k
  }

  /** An item's parent is cached and holds the item. */
  predicate Held(nodes: Nodes, nested: Nested, flat: set<Key>, j: Key) {
    j.kind != Ctx ==> j in nodes && nodes[j].parent in flat && j in Kids(nested, nodes[j].parent)
  }

  /** The flat maps hold what hangs from the cached contexts, level by level, and nothing else. */
  ghost predicate Flattened(nodes: Nodes, nested: Nested, flat: set<Key>) {
    && flat <= nodes.Keys
    && (forall j {:trigger Held(nodes, nested, flat, j)} :: j in flat ==> Held(nodes, nested, flat, j))
    && (forall k, j :: j in Kids(nested, k) && k in flat ==> j in flat)
  }

  /** Object and row are the same item; of a regex only the identity and the parent. */
  predicate RowAgrees(nodes: Nodes, rows: Nodes, k: Key) {
    && k in nodes && k in rows
    && rows[k].parent == nodes[k].parent && rows[k].position == nodes[k].position
    && (k.kind != Regex ==> rows[k] == nodes[k])
  }

  /** Cache and tables agree. */
  ghost predicate Agrees(nodes: Nodes, flat: set<Key>, rows: Nodes) {
    && rows.Keys == flat <= nodes.Keys
    && (forall k {:trigger RowAgrees(nodes, rows, k)} :: k in flat ==> RowAgrees(nodes, rows, k))
  }

  ghost predicate PositiveNodes(nodes: Nodes) {
    forall k :: k in nodes && Ordered(k.kind) ==> nodes[k].position > 0
  }

  predicate SameParent(nodes: Nodes, rows: Nodes, k: Key) {
    k in nodes && k in rows && rows[k].parent == nodes[k].parent
  }

  /** The cached items are those of the tables, below the same parents. */
  ghost predicate RowsTied(nodes: Nodes, flat: set<Key>, rows: Nodes) {
    && rows.Keys == flat <= nodes.Keys
    && (forall k {:trigger SameParent(nodes, rows, k)} :: k in flat ==> SameParent(nodes, rows, k))
  }

  /** What holds for any positions: objects, nested maps, flat maps and tables form one tree. */
  ghost predicate Tied(s: Cache) {
    Shaped(s.nodes, s.nested) && Flattened(s.nodes, s.nested, s.flat) && RowsTied(s.nodes, s.flat, s.rows)
  }

  /** While NoProceed is on, every context has a document that shows its tree; with distinct sibling positions there is
      one such document. */
  ghost predicate Documented(s: Cache) {
    s.noProceed ==> forall c :: c in s.flat && c.kind == Ctx ==> DocumentShown(s, c)
  }

  ghost predicate DocumentShown(s: Cache, c: Key) {
    c in s.docs && Shows(s.nodes, s.nested, c, s.docs[c])
  }

  ghost predicate Linked(s: Cache) {
    && Shaped(s.nodes, s.nested)
    && Flattened(s.nodes, s.nested, s.flat)
    && Agrees(s.nodes, s.flat, s.rows)
    && SiblingsApart(s.nodes, s.nested)
    && PositiveNodes(s.nodes)
  }

  ghost predicate Good(s: Cache) {
    Linked(s) && Documented(s)
  }

  /** Hanging from a cached context through the nested maps. */
  predicate Hangs(nodes: Nodes, nested: Nested, contexts: set<Key>, k: Key)
    decreases Rank(k.kind)
  {
    if k.kind == Ctx then k in contexts
    else
      && k in nodes && nodes[k].parent.kind == ParentKind(k.kind)
      && k in Kids(nested, nodes[k].parent)
      && Hangs(nodes, nested, contexts, nodes[k].parent)
  }

  /** The flat maps equal the flattening of the nested tree: no item lacks its parent and none is missing. */
  lemma {:induction false} FlatIsFlattening(s: Cache, contexts: set<Key>, k: Key)
    requires Shaped(s.nodes, s.nested) && Flattened(s.nodes, s.nested, s.flat)
    requires forall c :: c in contexts <==> c in s.flat && c.kind == Ctx
    ensures k in s.flat <==> Hangs(s.nodes, s.nested, contexts, k)
    decreases Rank(k.kind)
  {
    if k.kind != Ctx && k in s.nodes {
      assert k in s.flat ==> Held(s.nodes, s.nested, s.flat, k);
      FlatIsFlattening(s, contexts, s.nodes[k].parent);
    }
  }

  // ----- the steps -----

  function CtxOf(nodes: Nodes, k: Key): Key
    decreases Rank(k.kind)
  {
    if k.kind != Ctx && k in nodes && nodes[k].parent.kind == ParentKind(k.kind) then CtxOf(nodes, nodes[k].parent)
    else k
  }

  predicate IsSibling(rows: Nodes, kind: Kind, parent: Key, j: Key) {
    j in rows && j.kind == kind && rows[j].parent == parent
  }

  /** One past the last position of the parent, or 1 below an empty parent. */
  ghost predicate IsNextPosition(rows: Nodes, kind: Kind, parent: Key, position: int) {
    && (forall j :: IsSibling(rows, kind, parent, j) ==> rows[j].position < position)
    && ((forall j :: !IsSibling(rows, kind, parent, j)) ==> position == 1)
    && ((exists j :: IsSibling(rows, kind, parent, j)) ==>
          exists j :: IsSibling(rows, kind, parent, j) && rows[j].position == position - 1)
  }

  function WithContext(s: Cache, k: Key, name: string): Cache {
    var node := Node(k, 0, true, ContextFields(name));
    s.(nodes := s.nodes[k := node], nested := s.nested[k := {}], flat := s.flat + {k}, rows := s.rows[k := node])
  }

  function Linking(nested: Nested, p: Key, k: Key): Nested {
    nested[k := {}][p := Kids(nested, p) + {k}]
  }

  function WithChild(s: Cache, k: Key, node: Node): Cache {
    s.(nodes := s.nodes[k := node], nested := Linking(s.nested, node.parent, k), flat := s.flat + {k},
        rows := s.rows[k := node])
  }

  /** One pass over the flat map of a kind: items whose parent is no longer cached are dropped. */
  function ClearUp(nodes: Nodes, flat: set<Key>, kind: Kind): (rest: set<Key>)
    ensures forall j :: j in rest <==> j in flat && (j.kind == kind && j in nodes ==> nodes[j].parent in flat)
  {
    flat - set j | j in flat && j.kind == kind && j in nodes && nodes[j].parent !in flat
  }

  function ClearConditions(nodes: Nodes, flat: set<Key>): set<Key> {
    ClearUp(nodes, ClearUp(nodes, ClearUp(nodes, ClearUp(nodes, flat, Cond), Regex), Act), Anti)
  }

  function ClearExtensions(nodes: Nodes, flat: set<Key>): set<Key> {
    ClearConditions(nodes, ClearUp(nodes, flat, Ext))
  }

  /** `k` is `a` or lies below it, by the chain of parents. */
  predicate Under(nodes: Nodes, k: Key, a: Key)
    decreases Rank(k.kind)
  {
    k == a ||
    (k.kind != Ctx && k in nodes && nodes[k].parent.kind == ParentKind(k.kind) && Under(nodes, nodes[k].parent, a))
  }

  /** ON DELETE CASCADE. */
  function Cascade(rows: Nodes, a: Key): Nodes {
    map j | j in rows && !Under(rows, j, a) :: rows[j]
  }

  function Unlinking(nodes: Nodes, nested: Nested, k: Key): Nested
    requires k in nodes
  {
    var p := nodes[k].parent;
    if k.kind == Ctx then nested else nested[p := Kids(nested, p) - {k}]
  }

  function Cleared(nodes: Nodes, flat: set<Key>, kind: Kind): set<Key> {
    match kind
    case Ctx => ClearExtensions(nodes, flat)
    case Ext => ClearExtensions(nodes, flat)
    case Cond => ClearConditions(nodes, flat)
    case _ => flat
  }

  function Removed(s: Cache, k: Key): Cache
    requires k in s.nodes
  {
    s.(nested := Unlinking(s.nodes, s.nested, k), flat := Cleared(s.nodes, s.flat - {k}, k.kind),
        rows := Cascade(s.rows, k))
  }

  /** The three modes of a condition exclude each other. */
  function Normalised(p: Payload): Payload {
    if !p.ConditionFields? then p
    else
      var none := Schedule("", "", "", "", "", "", "", "", "", "", "", "", "", "");
      if p.field != "" then p.(regex := "", schedule := none)
      else if p.regex != "" then p.(field := "", expression := "", schedule := none)
      else p.(field := "", expression := "", regex := "")
  }

  function Updated(s: Cache, k: Key, payload: Payload): Cache
    requires k in s.nodes && k in s.rows
  {
    var p := if k.kind == Cond then Normalised(payload) else payload;
    s.(nodes := s.nodes[k := s.nodes[k].(payload := p)], rows := s.rows[k := s.rows[k].(payload := p)])
  }

  /** The regex table is given the switch in its `field` column. */
  function SwitchedRow(row: Node, kind: Kind, on: bool): Node {
    if kind != Regex then row.(enabled := on)
    else
      var expression := if row.payload.RegexFields? then row.payload.expression else "";
      row.(payload := RegexFields(if on then "true" else "false", expression))
  }

  function Switched(s: Cache, k: Key, on: bool): Cache
    requires k in s.nodes && k in s.rows
  {
    s.(nodes := s.nodes[k := s.nodes[k].(enabled := on)], rows := s.rows[k := SwitchedRow(s.rows[k], k.kind, on)])
  }

  /** The statements are built from the position of the object, and the loop moves the objects of the same parent. */
  function Reordered(s: Cache, k: Key, n: int): Cache
    requires k in s.nodes && k in s.rows
  {
    s.(nodes := MovedNodes(s.nodes, k, n, Kids(s.nested, s.nodes[k].parent)),
       rows := MovedRows(s.rows, k, s.nodes[k].position, n))
  }

  function Named(node: Node, name: string): Node {
    match node.payload
    case ContextFields(_) => node.(payload := ContextFields(name))
    case ExtensionFields(_, continues) => node.(payload := ExtensionFields(name, continues))
    case _ => node
  }

  /** The table renames its row, the cache the objects that the name indexes lead to. */
  function Renamed(s: Cache, k: Key, name: string, hit: set<Key>): Cache
    requires k in s.rows
  {
    s.(nodes := map j | j in s.nodes :: if j in hit then Named(s.nodes[j], name) else s.nodes[j],
       rows := s.rows[k := Named(s.rows[k], name)])
  }

  datatype Edit =
    | AddContext(id: int, name: string)
    | Add(k: Key, node: Node)              // parent, position given by the table, payload
    | Remove(k: Key)
    | Update(k: Key, payload: Payload)
    | Rename(k: Key, name: string, hit: set<Key>)
    | Switch(k: Key, on: bool)
    | Move(k: Key, n: int)
    | SetNoProceed(on: bool)
    | Refused                              // by a check or by the database: nothing changes

  /** What the handlers and the database let through. */
  ghost predicate Accepted(s: Cache, e: Edit) {
    match e
    case AddContext(id, _) => Key(Ctx, id) !in s.nodes
    case Add(k, node) =>
      && k !in s.nodes && k.kind != Ctx && node.parent in s.flat && node.parent.kind == ParentKind(k.kind) &&
          node.enabled
      && (Ordered(k.kind) ==> IsNextPosition(s.rows, k.kind, node.parent, node.position))
    case Remove(k) => k in s.flat
    case Update(k, _) => k in s.flat && k.kind != Ctx
    case Switch(k, _) => k in s.flat && Rank(k.kind) >= 2
    case Rename(k, _, hit) =>
      k in s.flat && Rank(k.kind) <= 1 && hit <= s.flat && (forall j :: j in hit ==> j.kind == k.kind) &&
          (k.kind == Ctx ==> hit == {k})
    case Move(k, n) =>
      k in s.flat && Ordered(k.kind) && n != 0 &&
          (k in s.nodes && k in s.rows ==> StaysDistinct(s.rows, k, s.nodes[k].position, n))
    case SetNoProceed(_) => true
    case Refused => true
  }

  /** What leaves cache and table with the same item: a target above zero, and a rename that hits the renamed item
      alone. */
  ghost predicate Harmless(s: Cache, e: Edit) {
    match e
    case Move(_, n) => n > 0
    case Rename(k, name, hit) =>
      && (k !in hit && k in s.nodes ==> Named(s.nodes[k], name) == s.nodes[k])
      && (forall j :: j in hit && j != k && j in s.nodes ==> Named(s.nodes[j], name) == s.nodes[j])
    case _ => true
  }

  /** The step without its rendering. */
  function Edited(s: Cache, e: Edit): Cache {
    match e
    case AddContext(id, name) => WithContext(s, Key(Ctx, id), name)
    case Add(k, node) => WithChild(s, k, node)
    case Remove(k) => if k in s.nodes then Removed(s, k) else s
    case Update(k, payload) => if k in s.nodes && k in s.rows then Updated(s, k, payload) else s
    case Rename(k, name, hit) => if k in s.rows then Renamed(s, k, name, hit) else s
    case Switch(k, on) => if k in s.nodes && k in s.rows then Switched(s, k, on) else s
    case Move(k, n) => if k in s.nodes && k in s.rows then Reordered(s, k, n) else s
    case SetNoProceed(on) => s.(noProceed := on)
    case Refused => s
  }

  /** The context that is rendered again, if it is one. */
  function Affected(s: Cache, e: Edit): set<Key> {
    match e
    case AddContext(id, _) => {Key(Ctx, id)}
    case Add(_, node) => {CtxOf(s.nodes, node.parent)}
    case Remove(k) => if k.kind == Ctx then {} else {CtxOf(s.nodes, k)}
    case Update(k, _) => {CtxOf(s.nodes, k)}
    case Rename(k, _, _) => {CtxOf(s.nodes, k)}
    case Switch(k, _) => {CtxOf(s.nodes, k)}
    case Move(k, _) => {CtxOf(s.nodes, k)}
    case SetNoProceed(on) => if on then set c | c in s.flat && c.kind == Ctx else {}
    case Refused => {}
  }

  /** `contexts` are rendered again: each gets a document that shows it, the others keep theirs. */
  ghost predicate RenderedDocs(nodes: Nodes, nested: Nested, docs: map<Key, Doc>, contexts: set<Key>,
      docs': map<Key, Doc>)
  {
    && docs'.Keys == docs.Keys + contexts
    && (forall c :: c in docs' ==> if c in contexts then Shows(nodes, nested, c, docs'[c]) else docs'[c] == docs[c])
  }

  /** Without NoProceed nothing is stored. */
  ghost predicate Rerendered(s: Cache, contexts: set<Key>, t: Cache) {
    && t == s.(docs := t.docs)
    && (if s.noProceed then RenderedDocs(s.nodes, s.nested, s.docs, contexts, t.docs) else t.docs == s.docs)
  }

  /** One step; only the order in which equal positions are rendered is left open. */
  ghost predicate Step(s: Cache, e: Edit, t: Cache) {
    Rerendered(Edited(s, e), Affected(s, e), t)
  }

  // ----- deletion -----

  lemma {:induction false} UnderSame(nodes: Nodes, rows: Nodes, k: Key, a: Key)
    requires rows.Keys <= nodes.Keys && forall j :: j in rows ==> rows[j].parent == nodes[j].parent
    requires forall j :: j in rows && j.kind != Ctx ==> rows[j].parent in rows
    requires k in rows
    ensures Under(rows, k, a) <==> Under(nodes, k, a)
    decreases Rank(k.kind)
  {
    if k != a && k.kind != Ctx && rows[k].parent.kind == ParentKind(k.kind) {
      UnderSame(nodes, rows, rows[k].parent, a);
    }
  }

  /** After the passes exactly the descendants are gone. */
  lemma ClearedIsCascade(s: Cache, a: Key, k: Key)
    requires Shaped(s.nodes, s.nested) && Flattened(s.nodes, s.nested, s.flat) && a in s.flat
    ensures k in Cleared(s.nodes, s.flat - {a}, a.kind) <==> k in s.flat && !Under(s.nodes, k, a)
  {
    if k in s.flat && k.kind != Ctx {
      var p := s.nodes[k].parent;
      assert Held(s.nodes, s.nested, s.flat, k);
      UnderStep(s.nodes, k, a);
      UnderStep(s.nodes, p, a);
      if p.kind != Ctx {
        var q := s.nodes[p].parent;
        assert Held(s.nodes, s.nested, s.flat, p);
        UnderStep(s.nodes, q, a);
        if q.kind != Ctx {
          assert Held(s.nodes, s.nested, s.flat, q);
          UnderStep(s.nodes, s.nodes[q].parent, a);
        }
      }
    }
  }

  lemma UnderStep(nodes: Nodes, k: Key, a: Key)
    ensures Under(nodes, k, a) <==>
            k == a || (k.kind != Ctx && k in nodes && nodes[k].parent.kind == ParentKind(k.kind) &&
                Under(nodes, nodes[k].parent, a))
  {
  }

  lemma RowsUnderSame(s: Cache, a: Key, k: Key)
    requires Tied(s) && k in s.rows
    ensures Under(s.rows, k, a) <==> Under(s.nodes, k, a)
  {
    forall j | j in s.rows ensures j in s.nodes && s.rows[j].parent == s.nodes[j].parent {
      assert SameParent(s.nodes, s.rows, j);
    }
    forall j | j in s.rows && j.kind != Ctx ensures s.rows[j].parent in s.rows {
      assert Held(s.nodes, s.nested, s.flat, j);
    }
    UnderSame(s.nodes, s.rows, k, a);
  }

  /** What a delete removes from the flat maps is what the database cascades away, and both are the descendants. */
  lemma DeleteIsCascade(s: Cache, a: Key)
    requires Tied(s) && a in s.flat
    ensures Removed(s, a).flat == Removed(s, a).rows.Keys
    ensures forall k :: k in Removed(s, a).flat <==> k in s.flat && !Under(s.nodes, k, a)
  {
    forall k ensures k in Removed(s, a).flat <==> k in s.flat && !Under(s.nodes, k, a) {
      ClearedIsCascade(s, a, k);
    }
    forall k ensures k in Removed(s, a).rows <==> k in s.flat && !Under(s.nodes, k, a) {
      if k in s.rows { RowsUnderSame(s, a, k); }
    }
  }

  // ----- every step keeps the tree -----

  ghost predicate SameParents(nodes: Nodes, nodes': Nodes) {
    nodes.Keys == nodes'.Keys && forall j :: j in nodes ==> nodes'[j].parent == nodes[j].parent
  }

  lemma ShapedFollows(nodes: Nodes, nodes': Nodes, nested: Nested)
    requires Shaped(nodes, nested) && SameParents(nodes, nodes')
    ensures Shaped(nodes', nested)
  {
    forall k, j | j in Kids(nested, k) ensures IsKid(nodes', k, j) {
      assert IsKid(nodes, k, j);
    }
  }

  lemma FlattenedFollows(nodes: Nodes, nodes': Nodes, nested: Nested, flat: set<Key>)
    requires Flattened(nodes, nested, flat) && SameParents(nodes, nodes')
    ensures Flattened(nodes', nested, flat)
  {
    forall j | j in flat ensures Held(nodes', nested, flat, j) {
      assert Held(nodes, nested, flat, j);
    }
  }

  lemma ApartFollows(nodes: Nodes, nodes': Nodes, nested: Nested)
    requires SiblingsApart(nodes, nested) && SameParents(nodes, nodes')
    requires forall j :: j in nodes ==> nodes'[j].position == nodes[j].position
    ensures SiblingsApart(nodes', nested)
  {
    forall h ensures KidsApart(nodes', Kids(nested, h)) {
      assert KidsApart(nodes, Kids(nested, h));
      forall i, j | i in Kids(nested, h) && j in Kids(nested, h) ensures PairApart(nodes', i, j) {
        assert PairApart(nodes, i, j);
      }
    }
  }

  lemma TiedWith(nodes: Nodes, flat: set<Key>, rows: Nodes, k: Key, node: Node)
    requires RowsTied(nodes, flat, rows)
    ensures RowsTied(nodes[k := node], flat + {k}, rows[k := node])
  {
    forall j | j in flat + {k} ensures SameParent(nodes[k := node], rows[k := node], j) {
      assert j != k ==> SameParent(nodes, rows, j);
    }
  }

  lemma TiedWithout(nodes: Nodes, flat: set<Key>, rows: Nodes, flat': set<Key>, rows': Nodes)
    requires RowsTied(nodes, flat, rows) && rows'.Keys == flat' <= flat && SomeRows(rows, rows')
    ensures RowsTied(nodes, flat', rows')
  {
    forall j | j in flat' ensures SameParent(nodes, rows', j) {
      assert SameParent(nodes, rows, j);
    }
  }

  ghost predicate SomeRows(rows: Nodes, rows': Nodes) {
    forall j :: j in rows' ==> j in rows && rows'[j] == rows[j]
  }

  /** An edit that leaves all parents as they are keeps the tree, whatever it does to positions, names and switches. */
  lemma ChangeTied(s: Cache, t: Cache)
    requires Tied(s) && t.nested == s.nested && t.flat == s.flat
    requires SameParents(s.nodes, t.nodes) && SameParents(s.rows, t.rows)
    ensures Tied(t)
  {
    ShapedFollows(s.nodes, t.nodes, s.nested);
    FlattenedFollows(s.nodes, t.nodes, s.nested, s.flat);
    forall j | j in t.flat ensures SameParent(t.nodes, t.rows, j) {
      assert SameParent(s.nodes, s.rows, j);
    }
  }

  lemma TiedItem(s: Cache, k: Key)
    requires Tied(s) && k in s.flat
    ensures k in s.nodes && k in s.rows && s.rows[k].parent == s.nodes[k].parent
    ensures k.kind != Ctx ==> k in Kids(s.nested, s.nodes[k].parent)
  {
    assert SameParent(s.nodes, s.rows, k) && Held(s.nodes, s.nested, s.flat, k);
  }

  lemma AddTied(s: Cache, k: Key, node: Node)
    requires Tied(s) && Accepted(s, Add(k, node))
    ensures Tied(WithChild(s, k, node))
  {
    AddKeepsShape(s.nodes, s.nested, k, node);
    AddKeepsFlat(s.nodes, s.nested, s.flat, k, node);
    TiedWith(s.nodes, s.flat, s.rows, k, node);
  }

  lemma AddContextTied(s: Cache, id: int, name: string)
    requires Tied(s) && Key(Ctx, id) !in s.nodes
    ensures Tied(WithContext(s, Key(Ctx, id), name))
  {
    var k := Key(Ctx, id);
    var node := Node(k, 0, true, ContextFields(name));
    NewContextFlat(s.nodes, s.nested, s.flat, k, node);
    NewContextShaped(s.nodes, s.nested, k, node);
    TiedWith(s.nodes, s.flat, s.rows, k, node);
  }

  lemma RemoveTied(s: Cache, k: Key)
    requires Tied(s) && k in s.flat
    ensures k in s.nodes && Tied(Removed(s, k))
  {
    DeleteIsCascade(s, k);
    RemoveKeepsFlat(s, k);
    UnlinkedShaped(s.nodes, s.nested, k);
    TiedWithout(s.nodes, s.flat, s.rows, Removed(s, k).flat, Removed(s, k).rows);
  }

  lemma MoveTied(s: Cache, k: Key, n: int)
    requires Tied(s) && k in s.flat
    ensures k in s.nodes && k in s.rows && Tied(Reordered(s, k, n))
  {
    ChangeTied(s, Reordered(s, k, n));
  }

  lemma RenameTied(s: Cache, k: Key, name: string, hit: set<Key>)
    requires Tied(s) && k in s.rows
    ensures Tied(Renamed(s, k, name, hit))
  {
    ChangeTied(s, Renamed(s, k, name, hit));
  }

  /** Every accepted edit, harmless or not and for any positions, leaves one tree: in particular the flat maps hold
      what the tables hold, below the same parents. */
  lemma EditTied(s: Cache, e: Edit)
    requires Tied(s) && Accepted(s, e)
    ensures Tied(Edited(s, e))
  {
    match e
    case AddContext(id, name) => AddContextTied(s, id, name);
    case Add(k, node) => AddTied(s, k, node);
    case Remove(k) => RemoveTied(s, k);
    case Update(k, payload) => ChangeTied(s, Updated(s, k, payload));
    case Rename(k, name, hit) => RenameTied(s, k, name, hit);
    case Switch(k, on) => ChangeTied(s, Switched(s, k, on));
    case Move(k, n) => MoveTied(s, k, n);
    case SetNoProceed(on) =>
    case Refused =>
  }

  // ----- when table and cache stay in step -----

  lemma AgreesWith(nodes: Nodes, flat: set<Key>, rows: Nodes, k: Key, node: Node)
    requires Agrees(nodes, flat, rows)
    ensures Agrees(nodes[k := node], flat + {k}, rows[k := node])
  {
    forall j | j in flat + {k} ensures RowAgrees(nodes[k := node], rows[k := node], j) {
      assert j != k ==> RowAgrees(nodes, rows, j);
    }
  }

  lemma AgreesWithout(nodes: Nodes, flat: set<Key>, rows: Nodes, flat': set<Key>, rows': Nodes)
    requires Agrees(nodes, flat, rows) && rows'.Keys == flat' <= flat
    requires forall j :: j in rows' ==> rows'[j] == rows[j]
    ensures Agrees(nodes, flat', rows')
  {
    forall j | j in flat' ensures RowAgrees(nodes, rows', j) {
      assert RowAgrees(nodes, rows, j);
    }
  }

  lemma AgreesChanged(nodes: Nodes, flat: set<Key>, rows: Nodes, k: Key, node: Node, row: Node)
    requires Agrees(nodes, flat, rows) && k in flat
    requires node.parent == row.parent && node.position == row.position && (k.kind != Regex ==> node == row)
    ensures Agrees(nodes[k := node], flat, rows[k := row])
  {
    forall j | j in flat ensures RowAgrees(nodes[k := node], rows[k := row], j) {
      assert j != k ==> RowAgrees(nodes, rows, j);
    }
  }

  lemma AgreesAreTied(s: Cache)
    requires Shaped(s.nodes, s.nested) && Flattened(s.nodes, s.nested, s.flat) && Agrees(s.nodes, s.flat, s.rows)
    ensures Tied(s)
  {
    forall k | k in s.flat ensures SameParent(s.nodes, s.rows, k) {
      assert RowAgrees(s.nodes, s.rows, k);
    }
  }

  lemma UpdateKeepsLinks(s: Cache, k: Key, payload: Payload)
    requires Linked(s) && k in s.flat
    ensures k in s.rows && Linked(Updated(s, k, payload))
  {
    assert RowAgrees(s.nodes, s.rows, k);
    var t := Updated(s, k, payload);
    AgreesChanged(s.nodes, s.flat, s.rows, k, t.nodes[k], t.rows[k]);
    ChangeKeepsLinks(s, t);
  }

  lemma SwitchKeepsLinks(s: Cache, k: Key, on: bool)
    requires Linked(s) && k in s.flat
    ensures k in s.rows && Linked(Switched(s, k, on))
  {
    assert RowAgrees(s.nodes, s.rows, k);
    var t := Switched(s, k, on);
    AgreesChanged(s.nodes, s.flat, s.rows, k, t.nodes[k], t.rows[k]);
    ChangeKeepsLinks(s, t);
  }

  lemma ChangeKeepsLinks(s: Cache, t: Cache)
    requires Linked(s) && t.nested == s.nested && t.flat == s.flat && SameParents(s.nodes, t.nodes)
    requires forall j :: j in s.nodes ==> t.nodes[j].position == s.nodes[j].position
    requires Agrees(t.nodes, t.flat, t.rows)
    ensures Linked(t)
  {
    ShapedFollows(s.nodes, t.nodes, s.nested);
    FlattenedFollows(s.nodes, t.nodes, s.nested, s.flat);
    ApartFollows(s.nodes, t.nodes, s.nested);
  }

  lemma UnlinkedKids(nodes: Nodes, nested: Nested, k: Key, h: Key)
    requires k in nodes
    ensures Kids(Unlinking(nodes, nested, k), h) ==
            if k.kind != Ctx && h == nodes[k].parent then Kids(nested, h) - {k} else Kids(nested, h)
  {
  }

  lemma UnlinkedShaped(nodes: Nodes, nested: Nested, k: Key)
    requires Shaped(nodes, nested) && k in nodes
    ensures Shaped(nodes, Unlinking(nodes, nested, k))
  {
    var nested' := Unlinking(nodes, nested, k);
    forall h, j | j in Kids(nested', h) ensures IsKid(nodes, h, j) {
      UnlinkedKids(nodes, nested, k, h);
      assert j in Kids(nested, h);
    }
  }

  lemma UnlinkedApart(nodes: Nodes, nested: Nested, k: Key)
    requires SiblingsApart(nodes, nested) && k in nodes
    ensures SiblingsApart(nodes, Unlinking(nodes, nested, k))
  {
    var nested' := Unlinking(nodes, nested, k);
    forall h ensures KidsApart(nodes, Kids(nested', h)) {
      UnlinkedKids(nodes, nested, k, h);
      assert KidsApart(nodes, Kids(nested, h));
    }
  }

  lemma RemovedKid(s: Cache, k: Key, h: Key, j: Key)
    requires Shaped(s.nodes, s.nested) && Flattened(s.nodes, s.nested, s.flat) && k in s.flat
    requires h in s.flat && !Under(s.nodes, h, k) && j in Kids(Unlinking(s.nodes, s.nested, k), h)
    ensures j in s.flat && !Under(s.nodes, j, k)
  {
    UnlinkedKids(s.nodes, s.nested, k, h);
    assert j in Kids(s.nested, h);
    UnderStep(s.nodes, j, k);
  }

  lemma RemoveKeepsFlat(s: Cache, k: Key)
    requires Shaped(s.nodes, s.nested) && Flattened(s.nodes, s.nested, s.flat) && k in s.flat
    ensures Flattened(s.nodes, Unlinking(s.nodes, s.nested, k), Cleared(s.nodes, s.flat - {k}, k.kind))
  {
    var nested', flat' := Unlinking(s.nodes, s.nested, k), Cleared(s.nodes, s.flat - {k}, k.kind);
    forall j | j in flat' ensures j in s.flat && Held(s.nodes, nested', flat', j) {
      ClearedIsCascade(s, k, j);
      RemovedHeld(s, k, j);
    }
    forall h, j | j in Kids(nested', h) && h in flat' ensures j in flat' {
      ClearedIsCascade(s, k, h);
      RemovedKid(s, k, h, j);
      ClearedIsCascade(s, k, j);
    }
  }

  lemma RemovedHeld(s: Cache, k: Key, j: Key)
    requires Shaped(s.nodes, s.nested) && Flattened(s.nodes, s.nested, s.flat) && k in s.flat
    requires j in s.flat && !Under(s.nodes, j, k)
    ensures Held(s.nodes, Unlinking(s.nodes, s.nested, k), Cleared(s.nodes, s.flat - {k}, k.kind), j)
  {
    assert Held(s.nodes, s.nested, s.flat, j);
    UnderStep(s.nodes, j, k);
    UnlinkedKids(s.nodes, s.nested, k, s.nodes[j].parent);
    ClearedIsCascade(s, k, s.nodes[j].parent);
  }

  lemma RemoveKeepsLinks(s: Cache, k: Key)
    requires Linked(s) && k in s.flat
    ensures Linked(Removed(s, k))
  {
    AgreesAreTied(s);
    RemoveTied(s, k);
    UnlinkedApart(s.nodes, s.nested, k);
    DeleteIsCascade(s, k);
    AgreesWithout(s.nodes, s.flat, s.rows, Removed(s, k).flat, Removed(s, k).rows);
  }

  lemma LinkedKids(nested: Nested, p: Key, k: Key, h: Key)
    requires p != k
    ensures Kids(Linking(nested, p, k), h) ==
            if h == p then Kids(nested, p) + {k} else if h == k then {} else Kids(nested, h)
  {
  }

  lemma AddKeepsShape(nodes: Nodes, nested: Nested, k: Key, node: Node)
    requires Shaped(nodes, nested) && k !in nodes && k.kind != Ctx && node.parent != k
    requires node.parent.kind == ParentKind(k.kind)
    ensures Shaped(nodes[k := node], Linking(nested, node.parent, k))
  {
    forall h, j | j in Kids(Linking(nested, node.parent, k), h) ensures IsKid(nodes[k := node], h, j) {
      LinkedKids(nested, node.parent, k, h);
      assert j != k ==> j in Kids(nested, h);
    }
  }

  lemma AddKeepsFlat(nodes: Nodes, nested: Nested, flat: set<Key>, k: Key, node: Node)
    requires Flattened(nodes, nested, flat) && k !in nodes && k.kind != Ctx && node.parent in flat
    ensures Flattened(nodes[k := node], Linking(nested, node.parent, k), flat + {k})
  {
    var nodes', nested', flat' := nodes[k := node], Linking(nested, node.parent, k), flat + {k};
    forall j | j in flat' ensures Held(nodes', nested', flat', j) {
      LinkedKids(nested, node.parent, k, nodes'[j].parent);
      if j != k {
        assert Held(nodes, nested, flat, j);
      }
    }
    forall h, j | j in Kids(nested', h) && h in flat' ensures j in flat' {
      LinkedKids(nested, node.parent, k, h);
      assert j != k ==> j in Kids(nested, h);
    }
  }

  lemma NewIsApart(nodes: Nodes, rows: Nodes, flat: set<Key>, k: Key, node: Node, j: Key)
    requires Agrees(nodes, flat, rows) && k !in nodes && j in flat && nodes[j].parent == node.parent
    requires Ordered(k.kind) ==> IsNextPosition(rows, k.kind, node.parent, node.position)
    ensures PairApart(nodes[k := node], j, k) && PairApart(nodes[k := node], k, j)
  {
    assert RowAgrees(nodes, rows, j);
    assert j.kind == k.kind ==> IsSibling(rows, k.kind, node.parent, j);
  }

  lemma AddKeepsApart(s: Cache, k: Key, node: Node)
    requires Linked(s) && Accepted(s, Add(k, node))
    ensures SiblingsApart(s.nodes[k := node], Linking(s.nested, node.parent, k))
  {
    var nodes', nested' := s.nodes[k := node], Linking(s.nested, node.parent, k);
    forall h ensures KidsApart(nodes', Kids(nested', h)) {
      LinkedKids(s.nested, node.parent, k, h);
      assert KidsApart(s.nodes, Kids(s.nested, h));
      forall i, j | i in Kids(nested', h) && j in Kids(nested', h) ensures PairApart(nodes', i, j) {
        if i != k && j != k {
          assert PairApart(s.nodes, i, j);
        } else if i != k || j != k {
          var old' := if i == k then j else i;
          assert old' in Kids(s.nested, h) && IsKid(s.nodes, h, old');
          NewIsApart(s.nodes, s.rows, s.flat, k, node, old');
        }
      }
    }
  }

  lemma NextIsPositive(s: Cache, kind: Kind, parent: Key, position: int)
    requires PositiveNodes(s.nodes) && Agrees(s.nodes, s.flat, s.rows)
    ensures Ordered(kind) && IsNextPosition(s.rows, kind, parent, position) ==> position > 0
  {
    if Ordered(kind) && IsNextPosition(s.rows, kind, parent, position)
       && exists j :: IsSibling(s.rows, kind, parent, j) && s.rows[j].position == position - 1 {
      var j :| IsSibling(s.rows, kind, parent, j) && s.rows[j].position == position - 1;
      assert RowAgrees(s.nodes, s.rows, j);
    }
  }

  lemma AddKeepsLinks(s: Cache, k: Key, node: Node)
    requires Linked(s) && Accepted(s, Add(k, node))
    ensures Linked(WithChild(s, k, node))
  {
    AgreesAreTied(s);
    AddTied(s, k, node);
    AddKeepsApart(s, k, node);
    NextIsPositive(s, k.kind, node.parent, node.position);
    AgreesWith(s.nodes, s.flat, s.rows, k, node);
  }

  lemma NewContextKids(nested: Nested, k: Key, h: Key)
    ensures Kids(nested[k := {}], h) == if h == k then {} else Kids(nested, h)
  {
  }

  lemma NewContextFlat(nodes: Nodes, nested: Nested, flat: set<Key>, k: Key, node: Node)
    requires Flattened(nodes, nested, flat) && k !in nodes && k.kind == Ctx
    ensures Flattened(nodes[k := node], nested[k := {}], flat + {k})
  {
    var nodes', nested', flat' := nodes[k := node], nested[k := {}], flat + {k};
    forall j | j in flat' ensures Held(nodes', nested', flat', j) {
      if j != k {
        assert Held(nodes, nested, flat, j);
        NewContextKids(nested, k, nodes[j].parent);
      }
    }
    forall h, j | j in Kids(nested', h) && h in flat' ensures j in flat' {
      NewContextKids(nested, k, h);
      assert j in Kids(nested, h);
    }
  }

  lemma NewContextShaped(nodes: Nodes, nested: Nested, k: Key, node: Node)
    requires Shaped(nodes, nested) && k !in nodes && k.kind == Ctx
    ensures Shaped(nodes[k := node], nested[k := {}])
  {
    var nested' := nested[k := {}];
    forall h, j | j in Kids(nested', h) ensures IsKid(nodes[k := node], h, j) {
      NewContextKids(nested, k, h);
      assert j in Kids(nested, h) && IsKid(nodes, h, j);
    }
  }

  lemma NewContextApart(nodes: Nodes, nested: Nested, k: Key, node: Node)
    requires Shaped(nodes, nested) && SiblingsApart(nodes, nested) && k !in nodes
    ensures SiblingsApart(nodes[k := node], nested[k := {}])
  {
    var nodes', nested' := nodes[k := node], nested[k := {}];
    forall h ensures KidsApart(nodes', Kids(nested', h)) {
      NewContextKids(nested, k, h);
      assert KidsApart(nodes, Kids(nested, h));
      forall i, j | i in Kids(nested', h) && j in Kids(nested', h) ensures PairApart(nodes', i, j) {
        assert PairApart(nodes, i, j) && IsKid(nodes, h, i) && IsKid(nodes, h, j);
      }
    }
  }

  lemma AddContextKeepsLinks(s: Cache, id: int, name: string)
    requires Linked(s) && Key(Ctx, id) !in s.nodes
    ensures Linked(WithContext(s, Key(Ctx, id), name))
  {
    var k := Key(Ctx, id);
    var node := Node(k, 0, true, ContextFields(name));
    AgreesAreTied(s);
    AddContextTied(s, id, name);
    NewContextApart(s.nodes, s.nested, k, node);
    AgreesWith(s.nodes, s.flat, s.rows, k, node);
  }

  lemma ProperTables(s: Cache, kind: Kind)
    requires Linked(s) && Ordered(kind)
    ensures Proper(s.rows, kind)
  {
    var t := TableOf(s.rows, kind);
    forall i, j | i in s.rows && j in s.rows && i.kind == kind && j.kind == kind
      ensures s.rows[i].parent.kind == s.rows[j].parent.kind
    {
      assert RowAgrees(s.nodes, s.rows, i) && RowAgrees(s.nodes, s.rows, j);
    }
    RowsPositive(s, kind);
    forall i, j | i in t && j in t && i != j && t[i].parent == t[j].parent ensures t[i].pos != t[j].pos {
      RowsApart(s, Key(kind, i), Key(kind, j));
    }
  }

  lemma RowsPositive(s: Cache, kind: Kind)
    requires Linked(s) && Ordered(kind)
    ensures forall j :: j in s.rows && j.kind == kind ==> s.rows[j].position > 0
  {
    forall j | j in s.rows && j.kind == kind ensures s.rows[j].position > 0 {
      assert RowAgrees(s.nodes, s.rows, j);
    }
  }

  lemma RowsApart(s: Cache, i: Key, j: Key)
    requires Linked(s) && i in s.rows && j in s.rows && i != j && i.kind == j.kind && Ordered(i.kind)
    requires s.rows[i].parent.id == s.rows[j].parent.id
    ensures s.rows[i].position != s.rows[j].position
  {
    var p := s.nodes[i].parent;
    assert RowAgrees(s.nodes, s.rows, i) && RowAgrees(s.nodes, s.rows, j);
    assert Held(s.nodes, s.nested, s.flat, i) && Held(s.nodes, s.nested, s.flat, j);
    assert KidsApart(s.nodes, Kids(s.nested, p));
    assert PairApart(s.nodes, i, j);
  }

  lemma AcceptedMove(s: Cache, k: Key, n: int)
    requires k in s.flat && Ordered(k.kind) && n != 0 && k in s.rows && k in s.nodes
    ensures Accepted(s, Move(k, n)) <==> StaysDistinct(s.rows, k, s.nodes[k].position, n)
  {
  }

  /** In a state in step what a move does to the rows is the shift, for every target; it is permitted in every order of
      the rows, and accepted at all, exactly when the target is above zero, its mirror is free, or the table declares no
      constraint. */
  lemma MoveIsProgram(s: Cache, k: Key, n: int)
    requires Linked(s) && k in s.flat && Ordered(k.kind) && n != 0
    ensures k in s.rows && k in s.nodes
    ensures Reordered(s, k, n).rows == ShiftedRows(s.rows, k, n)
    ensures Permitted(s.rows, k, s.nodes[k].position, n) <==> n > 0 || !Enforced(k.kind) || !MirrorTaken(s.rows, k, n)
    ensures Accepted(s, Move(k, n)) <==> n > 0 || !Enforced(k.kind) || !MirrorTaken(s.rows, k, n)
  {
    assert RowAgrees(s.nodes, s.rows, k);
    ProperTables(s, k.kind);
    ShiftIsMove(s.rows, k, s.nodes[k].position, n);
    AcceptedMove(s, k, n);
  }

  lemma ShiftedRowAgrees(nodes: Nodes, rows: Nodes, k: Key, n: int, among: set<Key>, j: Key)
    requires RowAgrees(nodes, rows, k) && RowAgrees(nodes, rows, j) && k.kind != Regex && n >= 0
    requires j.kind == k.kind && nodes[j].parent == nodes[k].parent ==> j in among
    ensures RowAgrees(MovedNodes(nodes, k, n, among), ShiftedRows(rows, k, n), j)
  {
  }

  lemma MoveAgrees(s: Cache, k: Key, n: int)
    requires Flattened(s.nodes, s.nested, s.flat) && Agrees(s.nodes, s.flat, s.rows) && k in s.flat && Ordered(k.kind)
    requires n >= 0
    ensures k in s.nodes && k in s.rows
    ensures Agrees(MovedNodes(s.nodes, k, n, Kids(s.nested, s.nodes[k].parent)), s.flat, ShiftedRows(s.rows, k, n))
  {
    assert RowAgrees(s.nodes, s.rows, k);
    var among := Kids(s.nested, s.nodes[k].parent);
    forall j | j in s.flat ensures RowAgrees(MovedNodes(s.nodes, k, n, among), ShiftedRows(s.rows, k, n), j) {
      assert Held(s.nodes, s.nested, s.flat, j) && RowAgrees(s.nodes, s.rows, j);
      ShiftedRowAgrees(s.nodes, s.rows, k, n, among, j);
    }
  }

  lemma MoveApart(nodes: Nodes, nested: Nested, k: Key, n: int)
    requires Shaped(nodes, nested) && SiblingsApart(nodes, nested) && k in nodes && k in Kids(nested, nodes[k].parent)
    ensures SiblingsApart(MovedNodes(nodes, k, n, Kids(nested, nodes[k].parent)), nested)
  {
    var p := nodes[k].parent;
    var nodes' := MovedNodes(nodes, k, n, Kids(nested, p));
    forall h ensures KidsApart(nodes', Kids(nested, h)) {
      assert KidsApart(nodes, Kids(nested, h));
      forall i, j | i in Kids(nested, h) && j in Kids(nested, h) ensures PairApart(nodes', i, j) {
        assert IsKid(nodes, h, i) && IsKid(nodes, h, j);
        assert PairApart(nodes, i, j);
        assert h == p ==> PairApart(nodes, i, k) && PairApart(nodes, j, k);
      }
    }
  }

  lemma MovePositive(nodes: Nodes, k: Key, n: int, among: set<Key>)
    requires PositiveNodes(nodes) && k in nodes && Ordered(k.kind) && n >= 1
    ensures PositiveNodes(MovedNodes(nodes, k, n, among))
  {
  }

  lemma MoveKeepsLinks(s: Cache, k: Key, n: int)
    requires Linked(s) && k in s.flat && Ordered(k.kind) && n > 0
    ensures k in s.rows && Linked(Reordered(s, k, n))
  {
    assert Held(s.nodes, s.nested, s.flat, k) && RowAgrees(s.nodes, s.rows, k);
    AgreesAreTied(s);
    MoveTied(s, k, n);
    MoveIsProgram(s, k, n);
    MoveAgrees(s, k, n);
    MoveApart(s.nodes, s.nested, k, n);
    MovePositive(s.nodes, k, n, Kids(s.nested, s.nodes[k].parent));
  }

  lemma MoveBelowZeroParts(s: Cache, k: Key, n: int)
    requires Linked(s) && k in s.flat && Ordered(k.kind) && n < 0
    ensures k in s.rows && !PositiveNodes(Reordered(s, k, n).nodes)
  {
    assert Held(s.nodes, s.nested, s.flat, k) && RowAgrees(s.nodes, s.rows, k);
    assert Reordered(s, k, n).nodes[k].position == n;
  }

  /** A harmless rename writes the same name to object and row, like an update. */
  lemma RenameIsUpdate(s: Cache, k: Key, name: string, hit: set<Key>)
    requires k in s.nodes && k in s.rows && k.kind != Cond && s.rows[k] == s.nodes[k]
    requires Harmless(s, Rename(k, name, hit))
    ensures Renamed(s, k, name, hit) == Updated(s, k, Named(s.nodes[k], name).payload)
  {
    var payload := Named(s.nodes[k], name).payload;
    assert Renamed(s, k, name, hit).nodes == Updated(s, k, payload).nodes;
    assert Renamed(s, k, name, hit).rows == Updated(s, k, payload).rows;
  }

  lemma RenameParts(s: Cache, k: Key, name: string, hit: set<Key>)
    requires Linked(s) && Accepted(s, Rename(k, name, hit)) && !Harmless(s, Rename(k, name, hit))
    ensures k in s.rows && !Agrees(Renamed(s, k, name, hit).nodes, s.flat, Renamed(s, k, name, hit).rows)
  {
    var t := Renamed(s, k, name, hit);
    assert RowAgrees(s.nodes, s.rows, k);
    if k !in hit && Named(s.nodes[k], name) != s.nodes[k] {
      assert !RowAgrees(t.nodes, t.rows, k);
    } else {
      var j :| j in hit && j != k && j in s.nodes && Named(s.nodes[j], name) != s.nodes[j];
      assert RowAgrees(s.nodes, s.rows, j) && !RowAgrees(t.nodes, t.rows, j);
    }
  }

  lemma RenameLinksIff(s: Cache, k: Key, name: string, hit: set<Key>)
    requires Linked(s) && Accepted(s, Rename(k, name, hit))
    ensures k in s.rows && (Linked(Renamed(s, k, name, hit)) <==> Harmless(s, Rename(k, name, hit)))
  {
    assert RowAgrees(s.nodes, s.rows, k);
    if Harmless(s, Rename(k, name, hit)) {
      RenameIsUpdate(s, k, name, hit);
      UpdateKeepsLinks(s, k, Named(s.nodes[k], name).payload);
    } else {
      RenameParts(s, k, name, hit);
    }
  }

  lemma MoveLinksIff(s: Cache, k: Key, n: int)
    requires Linked(s) && Accepted(s, Move(k, n))
    ensures k in s.rows && (Linked(Reordered(s, k, n)) <==> n > 0)
  {
    if n > 0 { MoveKeepsLinks(s, k, n); } else { MoveBelowZeroParts(s, k, n); }
  }

  /** Every accepted edit keeps cache, tables and maps linked exactly when it is harmless. */
  lemma EditKeepsLinksIff(s: Cache, e: Edit)
    requires Linked(s) && Accepted(s, e)
    ensures Linked(Edited(s, e)) <==> Harmless(s, e)
  {
    match e
    case AddContext(id, name) => AddContextKeepsLinks(s, id, name);
    case Add(k, node) => AddKeepsLinks(s, k, node);
    case Remove(k) => RemoveKeepsLinks(s, k);
    case Update(k, payload) => UpdateKeepsLinks(s, k, payload);
    case Rename(k, name, hit) => RenameLinksIff(s, k, name, hit);
    case Switch(k, on) => SwitchKeepsLinks(s, k, on);
    case Move(k, n) => MoveLinksIff(s, k, n);
    case SetNoProceed(on) =>
    case Refused =>
  }

  /** A switch leaves cache and table with the same item unless the item is a regex: there the table keeps its old
      switch and loses its field, so they agree only if both happened to have these values before. */
  lemma SwitchAgreesIff(s: Cache, k: Key, on: bool)
    requires k in s.rows && k in s.nodes && s.rows[k] == s.nodes[k]
    requires k.kind == Regex ==> s.rows[k].payload.RegexFields?
    ensures var t := Edited(s, Switch(k, on));
            t.rows[k] == t.nodes[k] <==>
              k.kind != Regex || (s.rows[k].enabled == on && s.rows[k].payload.field == if on then "true" else "false")
  {
    assert k in s.rows;
    var row, node := SwitchedRow(s.rows[k], k.kind, on), s.nodes[k].(enabled := on);
    if k.kind == Regex {
      assert row.enabled == s.rows[k].enabled && node.payload == s.rows[k].payload;
      assert row.payload.expression == node.payload.expression;
    }
  }
}
