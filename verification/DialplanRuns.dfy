/** What every edit of the dialplan, and every run of edits, keeps: the documents of all contexts, and the agreement of
    cache, tables and documents. */
module DialplanRuns {
  import opened DialplanSteps
  import opened DialplanTables
  import opened DialplanTree
  import MP = MoveProgram

  // ----- documents of other contexts -----

  /** Outside `changed`, whose old members all belong to context `c0`, nothing differs. */
  ghost predicate OnlyIn(nodes: Nodes, nested: Nested, nodes': Nodes, nested': Nested, changed: set<Key>, c0: Key) {
    && (forall k :: k !in changed ==> SameHere(nodes, nested, nodes', nested', k))
    && (forall k :: k in changed && k in nodes ==> CtxOf(nodes, k) == c0)
  }

  lemma CtxOfKid(nodes: Nodes, nested: Nested, k: Key, j: Key)
    requires Shaped(nodes, nested) && j in Kids(nested, k)
    ensures j in nodes && CtxOf(nodes, j) == CtxOf(nodes, k)
  {
    assert IsKid(nodes, k, j);
  }

  lemma {:induction false} OthersSameBelow(nodes: Nodes, nested: Nested, nodes': Nodes, nested': Nested,
      changed: set<Key>, c0: Key, k: Key, depth: nat)
    requires Shaped(nodes, nested) && OnlyIn(nodes, nested, nodes', nested', changed, c0)
    requires k in nodes && CtxOf(nodes, k) != c0
    ensures SameBelow(nodes, nested, nodes', nested', k, depth)
    decreases depth
  {
    if depth > 0 {
      forall j | j in Kids(nested, k) ensures SameBelow(nodes, nested, nodes', nested', j, depth - 1) {
        CtxOfKid(nodes, nested, k, j);
        OthersSameBelow(nodes, nested, nodes', nested', changed, c0, j, depth - 1);
      }
    }
  }

  /** Rendering again the one context in which everything changed keeps all documents right. */
  lemma DocumentsFollow(s: Cache, t: Cache, changed: set<Key>, c0: Key, contexts: set<Key>, u: Cache)
    requires Shaped(s.nodes, s.nested) && s.flat <= s.nodes.Keys && Documented(s)
    requires t.noProceed == s.noProceed && t.docs == s.docs && Rerendered(t, contexts, u)
    requires forall c :: c in t.flat && c.kind == Ctx ==> c in s.flat || c in contexts
    requires OnlyIn(s.nodes, s.nested, t.nodes, t.nested, changed, c0)
    requires c0 in contexts || changed == {}
    ensures Documented(u)
  {
    if u.noProceed {
      forall c | c in u.flat && c.kind == Ctx ensures DocumentShown(u, c) {
        if c !in contexts {
          assert DocumentShown(s, c);
          SameDocument(s, t, changed, c0, c);
        }
      }
    }
  }

  lemma SameDocument(s: Cache, t: Cache, changed: set<Key>, c0: Key, c: Key)
    requires Shaped(s.nodes, s.nested) && c in s.nodes && c.kind == Ctx && (c != c0 || changed == {})
    requires DocumentShown(s, c)
    requires OnlyIn(s.nodes, s.nested, t.nodes, t.nested, changed, c0)
    ensures Shows(t.nodes, t.nested, c, s.docs[c])
  {
    var elsewhere := if changed == {} then Key(Regex, 0) else c0;
    OthersSameBelow(s.nodes, s.nested, t.nodes, t.nested, changed, elsewhere, c, 3);
    SameShows(s.nodes, s.nested, t.nodes, t.nested, c, s.docs[c]);
  }

  // ----- every step keeps the documents -----

  /** The objects and maps that an edit touches; all of them in the context that is rendered again. */
  function Touched(s: Cache, e: Edit): set<Key> {
    match e
    case AddContext(id, _) => {Key(Ctx, id)}
    case Add(k, node) => {k, node.parent}
    case Remove(k) => if k.kind != Ctx && k in s.nodes then {s.nodes[k].parent} else {}
    case Update(k, _) => {k}
    case Rename(k, _, _) => {k}
    case Switch(k, _) => {k}
    case Move(k, _) => if k in s.nodes then Kids(s.nested, s.nodes[k].parent) else {}
    case SetNoProceed(_) => {}
    case Refused => {}
  }

  lemma SiblingsOneContext(nodes: Nodes, nested: Nested, flat: set<Key>, k: Key)
    requires Shaped(nodes, nested) && Flattened(nodes, nested, flat) && k in flat && k.kind != Ctx
    ensures k in nodes && CtxOf(nodes, nodes[k].parent) == CtxOf(nodes, k)
    ensures forall j :: j in Kids(nested, nodes[k].parent) ==> j in nodes && CtxOf(nodes, j) == CtxOf(nodes, k)
  {
    assert Held(nodes, nested, flat, k);
    CtxOfKid(nodes, nested, nodes[k].parent, k);
    forall j | j in Kids(nested, nodes[k].parent) ensures j in nodes && CtxOf(nodes, j) == CtxOf(nodes, k) {
      CtxOfKid(nodes, nested, nodes[k].parent, j);
    }
  }

  lemma AddStaysInContext(s: Cache, k: Key, node: Node)
    requires k !in s.nodes && node.parent != k && node.parent in s.nodes
    ensures OnlyIn(s.nodes, s.nested, s.nodes[k := node], Linking(s.nested, node.parent, k), {k, node.parent},
            CtxOf(s.nodes, node.parent))
  {
    var changed := {k, node.parent};
    forall h | h !in changed
      ensures SameHere(s.nodes, s.nested, s.nodes[k := node], Linking(s.nested, node.parent, k), h)
    {
      LinkedKids(s.nested, node.parent, k, h);
    }
  }

  lemma RemoveStaysInContext(s: Cache, k: Key)
    requires Shaped(s.nodes, s.nested) && Flattened(s.nodes, s.nested, s.flat) && k in s.flat
    ensures OnlyIn(s.nodes, s.nested, s.nodes, Unlinking(s.nodes, s.nested, k), Touched(s, Remove(k)),
            CtxOf(s.nodes, k))
  {
    if k.kind != Ctx { SiblingsOneContext(s.nodes, s.nested, s.flat, k); }
    forall h | h !in Touched(s, Remove(k))
      ensures SameHere(s.nodes, s.nested, s.nodes, Unlinking(s.nodes, s.nested, k), h)
    {
      UnlinkedKids(s.nodes, s.nested, k, h);
    }
  }

  lemma ChangeStaysInContext(s: Cache, e: Edit)
    requires Shaped(s.nodes, s.nested) && Flattened(s.nodes, s.nested, s.flat) && Accepted(s, e)
    requires e.Update? || e.Switch? || e.Move?
    ensures OnlyIn(s.nodes, s.nested, Edited(s, e).nodes, Edited(s, e).nested, Touched(s, e), CtxOf(s.nodes, e.k))
  {
    if e.Move? {
      assert Held(s.nodes, s.nested, s.flat, e.k);
      SiblingsOneContext(s.nodes, s.nested, s.flat, e.k);
    }
  }

  lemma EditStaysInContext(s: Cache, e: Edit, c0: Key)
    requires Tied(s) && Accepted(s, e) && !e.SetNoProceed? && !e.Rename?
    requires c0 in Affected(s, e) || Affected(s, e) == {}
    ensures OnlyIn(s.nodes, s.nested, Edited(s, e).nodes, Edited(s, e).nested, Touched(s, e), c0)
  {
    match e
    case AddContext(id, name) =>
    case Add(k, node) => AddStaysInContext(s, k, node);
    case Remove(k) => RemoveStaysInContext(s, k);
    case Update(k, payload) => ChangeStaysInContext(s, e);
    case Switch(k, on) => ChangeStaysInContext(s, e);
    case Move(k, n) => ChangeStaysInContext(s, e);
    case Refused =>
  }

  lemma ContextsKnown(s: Cache, e: Edit)
    requires Accepted(s, e) && !e.SetNoProceed?
    ensures Affected(s, e) == {} ==> Touched(s, e) == {}
    ensures forall c :: c in Edited(s, e).flat && c.kind == Ctx ==> c in s.flat || c in Affected(s, e)
  {
  }

  // ----- documents and renames -----

  /** The rename reaches an object that another context shows under a name it did not have. */
  predicate ShownElsewhere(s: Cache, k: Key, name: string, j: Key) {
    && j in s.nodes && s.nodes[j].enabled && CtxOf(s.nodes, j) != CtxOf(s.nodes, k)
    && Named(s.nodes[j], name) != s.nodes[j]
  }

  /** The one edit after which a stored document is wrong. */
  predicate Misnames(s: Cache, e: Edit) {
    e.Rename? && s.noProceed && exists j :: j in e.hit && ShownElsewhere(s, e.k, e.name, j)
  }

  /** A hit extension hangs from a cached context. */
  lemma HitHangs(s: Cache, k: Key, name: string, hit: set<Key>, j: Key)
    requires Tied(s) && Accepted(s, Rename(k, name, hit)) && j in hit
    ensures j in s.nodes && k in s.nodes
    ensures j.kind == Ext ==>
              var c := s.nodes[j].parent;
              c in s.flat && c.kind == Ctx && j in Kids(s.nested, c) && CtxOf(s.nodes, j) == c
  {
    if j.kind == Ext {
      assert Held(s.nodes, s.nested, s.flat, j);
      CtxOfKid(s.nodes, s.nested, s.nodes[j].parent, j);
    }
  }

  /** Below an extension a rename changes nothing. */
  lemma {:induction false} RenamedSameBelow(s: Cache, k: Key, name: string, hit: set<Key>, j: Key, depth: nat)
    requires Tied(s) && Accepted(s, Rename(k, name, hit)) && k in s.rows && j in s.nodes && Rank(j.kind) >= 1
    requires Renamed(s, k, name, hit).nodes[j] == s.nodes[j]
    ensures SameBelow(s.nodes, s.nested, Renamed(s, k, name, hit).nodes, s.nested, j, depth)
    decreases depth
  {
    if depth > 0 {
      forall i | i in Kids(s.nested, j)
        ensures SameBelow(s.nodes, s.nested, Renamed(s, k, name, hit).nodes, s.nested, i, depth - 1)
      {
        assert IsKid(s.nodes, j, i);
        RenamedSameBelow(s, k, name, hit, i, depth - 1);
      }
    }
  }

  lemma RenamedKids(s: Cache, k: Key, name: string, hit: set<Key>, c: Key)
    requires k in s.rows
    ensures EnabledKids(Renamed(s, k, name, hit).nodes, s.nested, c, Ext) == EnabledKids(s.nodes, s.nested, c, Ext)
  {
  }

  lemma RenameKeepsShown(s: Cache, k: Key, name: string, hit: set<Key>, c: Key, d: Doc)
    requires Tied(s) && Accepted(s, Rename(k, name, hit)) && k in s.rows && c.kind == Ctx && c in s.nodes
    requires c != CtxOf(s.nodes, k) && Shows(s.nodes, s.nested, c, d)
    requires forall j :: j in hit ==> !ShownElsewhere(s, k, name, j)
    ensures Shows(Renamed(s, k, name, hit).nodes, s.nested, c, d)
  {
    var nodes' := Renamed(s, k, name, hit).nodes;
    var shown := EnabledKids(s.nodes, s.nested, c, Ext);
    var v :| IsSorted(v, s.nodes, shown) && ShowExts(s.nodes, s.nested, v, d.extensions);
    RenamedKids(s, k, name, hit, c);
    forall j | j in shown ensures nodes'[j] == s.nodes[j] {
      CtxOfKid(s.nodes, s.nested, c, j);
    }
    SortedStays(v, s.nodes, nodes', shown);
    forall i | 0 <= i < |v| ensures ShowsExt(nodes', s.nested, v[i], d.extensions[i]) {
      assert v[i] in v;
      RenamedSameBelow(s, k, name, hit, v[i], 2);
      SameShowsExt(s.nodes, s.nested, nodes', s.nested, v[i], d.extensions[i]);
    }
    assert nodes'[c] == s.nodes[c];
  }

  /** A value that no element loses and one element gains occurs more often. */
  lemma {:induction false} OccursMore(ps: seq<Payload>, qs: seq<Payload>, q: Payload)
    requires |ps| == |qs| && forall i :: 0 <= i < |ps| && ps[i] == q ==> qs[i] == q
    ensures multiset(ps)[q] <= multiset(qs)[q]
    ensures (exists i :: 0 <= i < |ps| && ps[i] != q && qs[i] == q) ==> multiset(ps)[q] < multiset(qs)[q]
    decreases |ps|
  {
    if ps != [] {
      var last := |ps| - 1;
      OccursMore(ps[..last], qs[..last], q);
      assert ps == ps[..last] + [ps[last]] && qs == qs[..last] + [qs[last]];
      if i :| 0 <= i < |ps| && ps[i] != q && qs[i] == q {
        assert i < last ==> ps[..last][i] != q && qs[..last][i] == q;
      }
    }
  }

  lemma FieldsOfExts(nodes: Nodes, nested: Nested, v: seq<Key>, ds: seq<DocExt>)
    requires ShowExts(nodes, nested, v, ds)
    ensures ShownAll(nodes, v) == seq(|ds|, i requires 0 <= i < |ds| => ds[i].fields)
  {
  }

  /** Where an object got another name, the old document is none of the context any more. */
  lemma RenameMisnames(s: Cache, k: Key, name: string, hit: set<Key>, j: Key, c: Key, d: Doc)
    requires Tied(s) && Accepted(s, Rename(k, name, hit)) && k in s.rows && j in hit && j.kind == Ext
    requires j in s.nodes && s.nodes[j].enabled && Named(s.nodes[j], name) != s.nodes[j] && j in Kids(s.nested, c)
    requires Shows(s.nodes, s.nested, c, d)
    ensures !Shows(Renamed(s, k, name, hit).nodes, s.nested, c, d)
  {
    var nodes' := Renamed(s, k, name, hit).nodes;
    if Shows(nodes', s.nested, c, d) {
      var shown := EnabledKids(s.nodes, s.nested, c, Ext);
      RenamedKids(s, k, name, hit, c);
      var v :| IsSorted(v, s.nodes, shown) && ShowExts(s.nodes, s.nested, v, d.extensions);
      var w :| IsSorted(w, nodes', shown) && ShowExts(nodes', s.nested, w, d.extensions);
      FieldsOfExts(s.nodes, s.nested, v, d.extensions);
      FieldsOfExts(nodes', s.nested, w, d.extensions);
      AnyOrderSameBag(nodes', nodes', w, v);
      NameOccursMore(s.nodes, nodes', hit, name, v, j);
    }
  }

  lemma NameOccursMore(nodes: Nodes, nodes': Nodes, hit: set<Key>, name: string, v: seq<Key>, j: Key)
    requires forall i :: i in v ==> i in nodes && i in nodes'
    requires forall i :: i in v ==> nodes'[i] == if i in hit then Named(nodes[i], name) else nodes[i]
    requires j in v && j in hit && Named(nodes[j], name) != nodes[j]
    ensures multiset(ShownAll(nodes, v)) != multiset(ShownAll(nodes', v))
  {
    var ps, qs, q := ShownAll(nodes, v), ShownAll(nodes', v), ShownAt(nodes', j);
    forall i | 0 <= i < |v| && ps[i] == q ensures qs[i] == q {
      assert v[i] in v;
    }
    var a :| 0 <= a < |v| && v[a] == j;
    assert ps[a] != q && qs[a] == q;
    OccursMore(ps, qs, q);
  }

  lemma RenameShows(s: Cache, e: Edit, t: Cache)
    requires Tied(s) && Documented(s) && Accepted(s, e) && Step(s, e, t) && e.Rename? && s.noProceed
    requires forall j :: j in e.hit ==> !ShownElsewhere(s, e.k, e.name, j)
    ensures Documented(t)
  {
    forall c | c in t.flat && c.kind == Ctx ensures DocumentShown(t, c) {
      assert DocumentShown(s, c);
      if c != CtxOf(s.nodes, e.k) {
        RenameKeepsShown(s, e.k, e.name, e.hit, c, s.docs[c]);
      }
    }
  }

  lemma RenameHides(s: Cache, e: Edit, t: Cache, j: Key)
    requires Tied(s) && Documented(s) && Accepted(s, e) && Step(s, e, t) && e.Rename? && s.noProceed
    requires j in e.hit && ShownElsewhere(s, e.k, e.name, j)
    ensures !Documented(t)
  {
    HitHangs(s, e.k, e.name, e.hit, j);
    var c := CtxOf(s.nodes, j);
    assert DocumentShown(s, c);
    RenameMisnames(s, e.k, e.name, e.hit, j, c, s.docs[c]);
    assert !DocumentShown(t, c);
  }

  lemma RenameShownIff(s: Cache, e: Edit, t: Cache)
    requires Tied(s) && Documented(s) && Accepted(s, e) && Step(s, e, t) && e.Rename?
    ensures Documented(t) <==> !Misnames(s, e)
  {
    if Misnames(s, e) {
      var j :| j in e.hit && ShownElsewhere(s, e.k, e.name, j);
      RenameHides(s, e, t, j);
    } else if s.noProceed {
      RenameShows(s, e, t);
    }
  }

  lemma SwitchDocuments(s: Cache, on: bool, t: Cache)
    requires Step(s, SetNoProceed(on), t)
    ensures Documented(t)
  {
  }

  lemma EditShows(s: Cache, e: Edit, t: Cache, c0: Key)
    requires Tied(s) && Documented(s) && Accepted(s, e) && Step(s, e, t) && !e.SetNoProceed? && !e.Rename?
    requires c0 in Affected(s, e) || Affected(s, e) == {}
    ensures Documented(t)
  {
    EditStaysInContext(s, e, c0);
    ContextsKnown(s, e);
    EditKeepsFlags(s, e);
    DocumentsFollow(s, Edited(s, e), Touched(s, e), c0, Affected(s, e), t);
  }

  lemma EditKeepsFlags(s: Cache, e: Edit)
    requires !e.SetNoProceed?
    ensures Edited(s, e).noProceed == s.noProceed && Edited(s, e).docs == s.docs
  {
  }

  /** For any positions every accepted edit leaves each context with a document that shows its tree, exactly unless it
      is a rename under NoProceed that gives a new name to an object which another context shows. */
  lemma EditShownIff(s: Cache, e: Edit, t: Cache)
    requires Tied(s) && Documented(s) && Accepted(s, e) && Step(s, e, t)
    ensures Documented(t) <==> !Misnames(s, e)
  {
    if e.SetNoProceed? {
      SwitchDocuments(s, e.on, t);
    } else if e.Rename? {
      RenameShownIff(s, e, t);
    } else {
      var c0 := if Affected(s, e) == {} then Key(Ctx, 0) else var c :| c in Affected(s, e); c;
      EditShows(s, e, t, c0);
    }
  }

  // ----- one step -----

  lemma StepTied(s: Cache, e: Edit, t: Cache)
    requires Tied(s) && Accepted(s, e) && Step(s, e, t)
    ensures Tied(t)
  {
    EditTied(s, e);
  }

  lemma HarmlessNamesRight(s: Cache, e: Edit)
    requires Harmless(s, e)
    ensures !Misnames(s, e)
  {
  }

  /** From a state in which everything is in step an accepted edit leads to one exactly when it is harmless. */
  lemma EditKeepsGoodIff(s: Cache, e: Edit, t: Cache)
    requires Good(s) && Accepted(s, e) && Step(s, e, t)
    ensures Good(t) <==> Harmless(s, e)
  {
    EditKeepsLinksIff(s, e);
    assert Linked(t) <==> Linked(Edited(s, e));
    if Harmless(s, e) {
      AgreesAreTied(s);
      HarmlessNamesRight(s, e);
      EditShownIff(s, e, t);
    }
  }

  /** In such a state every stored document is the rendering of its context. */
  lemma GoodDocuments(s: Cache, c: Key)
    requires Good(s) && s.noProceed && c in s.flat && c.kind == Ctx
    ensures c in s.docs && s.docs[c] == Render(s.nodes, s.nested, c)
  {
    assert DocumentShown(s, c);
    ShowsIsRender(s.nodes, s.nested, c, s.docs[c]);
  }

  // ----- every run -----

  const EMPTY := Cache(map[], map[], {}, map[], false, map[])

  ghost predicate IsHistory(states: seq<Cache>, edits: seq<Edit>) {
    && |states| == |edits| + 1
    && forall i :: 0 <= i < |edits| ==> Accepted(states[i], edits[i]) && Step(states[i], edits[i], states[i + 1])
  }

  /** In every run from any tree, with any edits and any positions, every state is a tree: nothing is orphaned, the
      flat maps hold what the tables hold, and both hold what hangs from the cached contexts. */
  lemma {:induction false} EveryRunTied(states: seq<Cache>, edits: seq<Edit>, i: nat)
    requires IsHistory(states, edits) && i <= |edits| && Tied(states[0])
    ensures Tied(states[i])
  {
    if i > 0 {
      EveryRunTied(states, edits, i - 1);
      StepTied(states[i - 1], edits[i - 1], states[i]);
    }
  }

  predicate RowKept(rows: Nodes, rows': Nodes, kind: Kind, j: Key) {
    j in rows' && j.kind == kind ==>
      j in rows && rows'[j].parent == rows[j].parent && rows'[j].position == rows[j].position
  }

  lemma TableKept(rows: Nodes, rows': Nodes, kind: Kind)
    requires MP.Unique(TableOf(rows, kind))
    requires forall j {:trigger RowKept(rows, rows', kind, j)} :: RowKept(rows, rows', kind, j)
    ensures MP.Unique(TableOf(rows', kind))
  {
    var t, t' := TableOf(rows, kind), TableOf(rows', kind);
    forall i | i in t' ensures i in t && t'[i] == t[i] {
      assert Key(kind, i) in rows' && RowKept(rows, rows', kind, Key(kind, i));
    }
  }

  /** No other edit touches the places of a kind. */
  lemma EditKeepsRow(s: Cache, e: Edit, kind: Kind, j: Key)
    requires Tied(s) && Accepted(s, e) && kind != Ctx
    requires !(e.Add? && e.k.kind == kind) && !(e.Move? && e.k.kind == kind)
    ensures RowKept(s.rows, Edited(s, e).rows, kind, j)
  {
  }

  lemma TableGrown(s: Cache, k: Key, node: Node)
    requires Tied(s) && Accepted(s, Add(k, node)) && Ordered(k.kind) && MP.Unique(TableOf(s.rows, k.kind))
    ensures MP.Unique(TableOf(s.rows[k := node], k.kind))
  {
    var t, t' := TableOf(s.rows, k.kind), TableOf(s.rows[k := node], k.kind);
    assert k == Key(k.kind, k.id) && t'[k.id] == MP.Row(node.parent.id, node.position);
    forall i | i in t' && i != k.id
      ensures i in t && t'[i] == t[i] && (t[i].parent == node.parent.id ==> t[i].pos != node.position)
    {
      var j := Key(k.kind, i);
      TiedItem(s, j);
      assert s.rows[j].parent.kind == node.parent.kind;
      assert s.rows[j].parent == node.parent ==> IsSibling(s.rows, k.kind, node.parent, j);
    }
  }

  lemma MoveDistinct(s: Cache, k: Key, n: int)
    requires Tied(s) && Accepted(s, Move(k, n)) && MP.Unique(TableOf(s.rows, k.kind)) && Enforced(k.kind)
    ensures MP.Unique(TableOf(Edited(s, Move(k, n)).rows, k.kind))
  {
    TiedItem(s, k);
    AcceptedMove(s, k, n);
  }

  lemma EditDistinct(s: Cache, e: Edit, kind: Kind)
    requires Tied(s) && Accepted(s, e) && Enforced(kind) && MP.Unique(TableOf(s.rows, kind))
    ensures MP.Unique(TableOf(Edited(s, e).rows, kind))
  {
    if e.Add? && e.k.kind == kind {
      TableGrown(s, e.k, e.node);
    } else if e.Move? && e.k.kind == kind {
      MoveDistinct(s, e.k, e.n);
    } else {
      forall j ensures RowKept(s.rows, Edited(s, e).rows, kind, j) {
        EditKeepsRow(s, e, kind, j);
      }
      TableKept(s.rows, Edited(s, e).rows, kind);
    }
  }

  /** In every run the tables that declare a constraint keep distinct positions below each parent, whatever the
      targets. */
  lemma {:induction false} EveryRunDistinct(states: seq<Cache>, edits: seq<Edit>, kind: Kind, i: nat)
    requires IsHistory(states, edits) && i <= |edits| && Tied(states[0])
    requires (kind == Ext || kind == Anti) && MP.Unique(TableOf(states[0].rows, kind))
    ensures MP.Unique(TableOf(states[i].rows, kind))
  {
    if i > 0 {
      EveryRunDistinct(states, edits, kind, i - 1);
      EveryRunTied(states, edits, i - 1);
      EditDistinct(states[i - 1], edits[i - 1], kind);
    }
  }

  lemma {:induction false} RunShown(states: seq<Cache>, edits: seq<Edit>, i: nat)
    requires IsHistory(states, edits) && i <= |edits| && Tied(states[0]) && Documented(states[0])
    requires forall j :: 0 <= j < i ==> !Misnames(states[j], edits[j])
    ensures Documented(states[i])
  {
    if i > 0 {
      RunShown(states, edits, i - 1);
      EveryRunTied(states, edits, i - 1);
      EditShownIff(states[i - 1], edits[i - 1], states[i]);
    }
  }

  /** For any positions, in every state of a run all contexts have documents that show them exactly when no edit of the
      run is a rename that reaches what another context shows. */
  lemma EveryRunShownIff(states: seq<Cache>, edits: seq<Edit>)
    requires IsHistory(states, edits) && Tied(states[0]) && Documented(states[0])
    ensures (forall i :: 0 <= i <= |edits| ==> Documented(states[i])) <==>
            (forall i :: 0 <= i < |edits| ==> !Misnames(states[i], edits[i]))
  {
    if forall i :: 0 <= i < |edits| ==> !Misnames(states[i], edits[i]) {
      forall i | 0 <= i <= |edits| ensures Documented(states[i]) {
        RunShown(states, edits, i);
      }
    }
    if forall i :: 0 <= i <= |edits| ==> Documented(states[i]) {
      forall i | 0 <= i < |edits| ensures !Misnames(states[i], edits[i]) {
        EveryRunTied(states, edits, i);
        assert Documented(states[i]) && Documented(states[i + 1]);
        EditShownIff(states[i], edits[i], states[i + 1]);
      }
    }
  }

  lemma {:induction false} RunGood(states: seq<Cache>, edits: seq<Edit>, i: nat)
    requires IsHistory(states, edits) && i <= |edits| && Good(states[0])
    requires forall j :: 0 <= j < i ==> Harmless(states[j], edits[j])
    ensures Good(states[i])
  {
    if i > 0 {
      RunGood(states, edits, i - 1);
      EditKeepsGoodIff(states[i - 1], edits[i - 1], states[i]);
    }
  }

  /** From any state in which everything is in step, it is so in every state of a run exactly when every edit is
      harmless. */
  lemma EveryRunGoodIff(states: seq<Cache>, edits: seq<Edit>)
    requires IsHistory(states, edits) && Good(states[0])
    ensures (forall i :: 0 <= i <= |edits| ==> Good(states[i])) <==>
            (forall i :: 0 <= i < |edits| ==> Harmless(states[i], edits[i]))
  {
    if forall i :: 0 <= i < |edits| ==> Harmless(states[i], edits[i]) {
      forall i | 0 <= i <= |edits| ensures Good(states[i]) {
        RunGood(states, edits, i);
      }
    }
    if forall i :: 0 <= i <= |edits| ==> Good(states[i]) {
      forall i | 0 <= i < |edits| ensures Harmless(states[i], edits[i]) {
        assert Good(states[i]) && Good(states[i + 1]);
        EditKeepsGoodIff(states[i], edits[i], states[i + 1]);
      }
    }
  }
}
