/** The cached dialplan as a value: objects, the maps that hang from them, the flat maps by id, and what is rendered. */
module DialplanTree {

  datatype Kind = Ctx | Ext | Cond | Regex | Act | Anti
  datatype Key = Key(kind: Kind, id: int)

  datatype Schedule = Schedule(
    hour: string, mday: string, mon: string, mweek: string, wday: string, dateTime: string, timeOfDay: string,
    year: string, minute: string, week: string, yday: string, minday: string, tzOffset: string, dst: string)

  datatype Payload =
    | ContextFields(name: string)
    | ExtensionFields(name: string, continues: string)
    | ConditionFields(conditionBreak: string, field: string, expression: string, regex: string, schedule: Schedule)
    | RegexFields(field: string, expression: string)
    | ActionFields(application: string, data: string, inline: bool)

  datatype Node = Node(parent: Key, position: int, enabled: bool, payload: Payload)

  function ParentKind(kind: Kind): Kind {
    match kind
    case Ctx => Ctx
    case Ext => Ctx
    case Cond => Ext
    case _ => Cond
  }

  function Rank(kind: Kind): nat {
    match kind
    case Ctx => 0
    case Ext => 1
    case Cond => 2
    case _ => 3
  }

  type Nodes = map<Key, Node>            // the objects, by the id that every map uses for them
  type Nested = map<Key, set<Key>>       // the maps inside a context, an extension or a condition

  predicate Ordered(kind: Kind) {
    kind != Ctx && kind != Regex
  }

  // ----- sorted views -----

  /** `v` lists the keys of `s` once each, by position. */
  ghost predicate IsSorted(v: seq<Key>, nodes: Nodes, s: set<Key>) {
    && s <= nodes.Keys
    && (forall k :: k in s <==> k in v)
    && (forall a, b :: 0 <= a < b < |v| ==> v[a] != v[b])
    && (forall a, b :: 0 <= a < b < |v| ==>
        v[a] in nodes && v[b] in nodes && nodes[v[a]].position <= nodes[v[b]].position)
  }

  ghost predicate Apart(nodes: Nodes, s: set<Key>) {
    s <= nodes.Keys && forall i, j :: i in s && j in s && i != j ==> nodes[i].position != nodes[j].position
  }

  lemma {:induction false} LeastExists(nodes: Nodes, s: set<Key>)
    requires s != {} && s <= nodes.Keys
    ensures exists k :: k in s && forall j :: j in s ==> nodes[k].position <= nodes[j].position
    decreases |s|
  {
    var x :| x in s;
    if s != {x} {
      LeastExists(nodes, s - {x});
      var k :| k in s - {x} && forall j :: j in s - {x} ==> nodes[k].position <= nodes[j].position;
      var least := if nodes[x].position < nodes[k].position then x else k;
      forall j | j in s ensures nodes[least].position <= nodes[j].position {
        if j != x { assert j in s - {x}; }
      }
    }
  }

  lemma ConsSorted(k: Key, rest: seq<Key>, nodes: Nodes, s: set<Key>)
    requires k in s && s <= nodes.Keys && IsSorted(rest, nodes, s - {k})
    requires forall j :: j in s ==> nodes[k].position <= nodes[j].position
    ensures IsSorted([k] + rest, nodes, s)
  {
    forall a | 0 <= a < |rest| ensures rest[a] in s - {k} {
      assert rest[a] in rest;
    }
    forall j ensures j in s <==> j in [k] + rest {
      assert j in [k] + rest <==> j == k || j in rest;
    }
  }

  ghost function Sorted(nodes: Nodes, s: set<Key>): (v: seq<Key>)
    requires s <= nodes.Keys
    ensures IsSorted(v, nodes, s)
    decreases |s|
  {
    if s == {} then []
    else
      LeastExists(nodes, s);
      var k :| k in s && forall j :: j in s ==> nodes[k].position <= nodes[j].position;
      var rest := Sorted(nodes, s - {k});
      ConsSorted(k, rest, nodes, s);
      [k] + rest
  }

  lemma SameMembersEmpty(v: seq<Key>, w: seq<Key>)
    requires forall k :: k in v <==> k in w
    ensures |v| == 0 ==> |w| == 0
  {
    if |w| > 0 {
      var x := w[0];
      assert x in w;
      assert x in v;
    }
  }

  lemma {:induction false} SortedIsUnique(v: seq<Key>, w: seq<Key>, nodes: Nodes, s: set<Key>)
    requires IsSorted(v, nodes, s) && IsSorted(w, nodes, s) && Apart(nodes, s)
    ensures v == w
    decreases |v|
  {
    if |v| == 0 || |w| == 0 {
      SameMembersEmpty(v, w);
      SameMembersEmpty(w, v);
    } else {
      FirstIsLeast(v, nodes, s);
      FirstIsLeast(w, nodes, s);
      assert v[0] in v && w[0] in w;
      assert v[0] == w[0];
      DropFirst(v, nodes, s);
      DropFirst(w, nodes, s);
      SortedIsUnique(v[1..], w[1..], nodes, s - {v[0]});
      assert v == [v[0]] + v[1..] && w == [w[0]] + w[1..];
    }
  }

  lemma FirstIsLeast(v: seq<Key>, nodes: Nodes, s: set<Key>)
    requires IsSorted(v, nodes, s) && |v| > 0
    ensures v[0] in s && forall j :: j in s ==> nodes[v[0]].position <= nodes[j].position
  {
    assert v[0] in v;
    forall j | j in s ensures nodes[v[0]].position <= nodes[j].position {
      var a :| 0 <= a < |v| && v[a] == j;
    }
  }

  lemma DropFirst(v: seq<Key>, nodes: Nodes, s: set<Key>)
    requires IsSorted(v, nodes, s) && |v| > 0
    ensures IsSorted(v[1..], nodes, s - {v[0]})
  {
    forall k ensures k in s - {v[0]} <==> k in v[1..] {
      if k in v[1..] {
        var a :| 0 <= a < |v[1..]| && v[1..][a] == k;
        assert v[a + 1] == k;
      }
    }
  }

  // ----- the stored document -----

  datatype DocCond = DocCond(fields: Payload, actions: seq<Payload>, antiActions: seq<Payload>,
      regexes: multiset<Payload>)
  datatype DocExt = DocExt(fields: Payload, conditions: seq<DocCond>)
  datatype Doc = Doc(fields: Payload, extensions: seq<DocExt>)

  /** The attributes that are written; the day of month of a condition is not among them. */
  function Shown(p: Payload): Payload {
    if p.ConditionFields? then p.(schedule := p.schedule.(mday := "")) else p
  }

  function ShownAt(nodes: Nodes, k: Key): Payload {
    if k in nodes then Shown(nodes[k].payload) else ContextFields("")
  }

  function ShownAll(nodes: Nodes, v: seq<Key>): seq<Payload> {
    seq(|v|, i requires 0 <= i < |v| => ShownAt(nodes, v[i]))
  }

  function Kids(nested: Nested, k: Key): set<Key> {
    if k in nested then nested[k] else {}
  }

  function EnabledKids(nodes: Nodes, nested: Nested, k: Key, kind: Kind): (s: set<Key>)
    ensures s <= nodes.Keys
    ensures forall j :: j in s <==> j in Kids(nested, k) && j.kind == kind && j in nodes && nodes[j].enabled
  {
    set j | j in Kids(nested, k) && j.kind == kind && j in nodes && nodes[j].enabled
  }

  ghost function View(nodes: Nodes, nested: Nested, k: Key, kind: Kind): seq<Key> {
    Sorted(nodes, EnabledKids(nodes, nested, k, kind))
  }

  ghost function RenderCond(nodes: Nodes, nested: Nested, k: Key): DocCond {
    DocCond(ShownAt(nodes, k),
            ShownAll(nodes, View(nodes, nested, k, Act)),
            ShownAll(nodes, View(nodes, nested, k, Anti)),
            multiset(ShownAll(nodes, View(nodes, nested, k, Regex))))
  }

  ghost function RenderExt(nodes: Nodes, nested: Nested, k: Key): DocExt {
    DocExt(ShownAt(nodes, k), RenderConds(nodes, nested, View(nodes, nested, k, Cond)))
  }

  ghost function RenderConds(nodes: Nodes, nested: Nested, v: seq<Key>): seq<DocCond> {
    seq(|v|, i requires 0 <= i < |v| => RenderCond(nodes, nested, v[i]))
  }

  ghost function Render(nodes: Nodes, nested: Nested, k: Key): Doc {
    Doc(ShownAt(nodes, k), RenderExts(nodes, nested, View(nodes, nested, k, Ext)))
  }

  ghost function RenderExts(nodes: Nodes, nested: Nested, v: seq<Key>): seq<DocExt> {
    seq(|v|, i requires 0 <= i < |v| => RenderExt(nodes, nested, v[i]))
  }

  ghost predicate NoRepeat(v: seq<Key>) {
    forall a, b :: 0 <= a < b < |v| ==> v[a] != v[b]
  }

  function Without(v: seq<Key>, a: nat): seq<Key>
    requires a < |v|
  {
    v[..a] + v[a + 1..]
  }

  lemma WithoutHas(v: seq<Key>, a: nat)
    requires a < |v| && NoRepeat(v)
    ensures NoRepeat(Without(v, a))
    ensures forall k :: k in Without(v, a) <==> k in v && k != v[a]
  {
    var w := Without(v, a);
    forall k ensures k in w <==> k in v && k != v[a] {
      if k in v && k != v[a] {
        var b :| 0 <= b < |v| && v[b] == k;
        assert w[if b < a then b else b - 1] == k;
      }
      if k in w {
        var b :| 0 <= b < |w| && w[b] == k;
        assert v[if b < a then b else b + 1] == k;
      }
    }
  }

  lemma BagWithout(nodes: Nodes, v: seq<Key>, a: nat)
    requires a < |v|
    ensures multiset(ShownAll(nodes, v)) == multiset(ShownAll(nodes, Without(v, a))) + multiset{ShownAt(nodes, v[a])}
  {
    var p := ShownAll(nodes, v);
    OneOut(p, a);
    assert ShownAll(nodes, Without(v, a)) == p[..a] + p[a + 1..];
  }

  lemma OneOut(p: seq<Payload>, a: nat)
    requires a < |p|
    ensures multiset(p) == multiset(p[..a] + p[a + 1..]) + multiset{p[a]}
  {
    assert p == p[..a] + [p[a]] + p[a + 1..];
  }

  /** A list without repetition has the same multiset of values in any order. */
  lemma {:induction false} AnyOrderSameBag(nodes: Nodes, nodes': Nodes, v: seq<Key>, w: seq<Key>)
    requires NoRepeat(v) && NoRepeat(w) && forall k :: k in v <==> k in w
    requires forall k :: k in v ==> ShownAt(nodes, k) == ShownAt(nodes', k)
    ensures multiset(ShownAll(nodes, v)) == multiset(ShownAll(nodes', w))
    decreases |v|
  {
    if |v| == 0 {
      SameMembersEmpty(v, w);
    } else {
      assert v[0] in v;
      var a :| 0 <= a < |w| && w[a] == v[0];
      WithoutHas(v, 0);
      WithoutHas(w, a);
      AnyOrderSameBag(nodes, nodes', Without(v, 0), Without(w, a));
      BagWithout(nodes, v, 0);
      BagWithout(nodes', w, a);
    }
  }

  // ----- the document depends on the subtree only -----

  ghost predicate SameHere(nodes: Nodes, nested: Nested, nodes': Nodes, nested': Nested, k: Key) {
    && (k in nodes <==> k in nodes') && (k in nodes ==> nodes[k] == nodes'[k])
    && Kids(nested, k) == Kids(nested', k)
  }

  /** Below `k` down to the actions nothing differs. */
  ghost predicate SameBelow(nodes: Nodes, nested: Nested, nodes': Nodes, nested': Nested, k: Key, depth: nat)
    decreases depth
  {
    && SameHere(nodes, nested, nodes', nested', k)
    && (depth > 0 ==> forall j :: j in Kids(nested, k) ==> SameBelow(nodes, nested, nodes', nested', j, depth - 1))
  }

  predicate PairApart(nodes: Nodes, i: Key, j: Key) {
    i in nodes && j in nodes && i != j && i.kind == j.kind && Ordered(i.kind) ==> nodes[i].position != nodes[j].position
  }

  /** Ordered children of one parent never share a position. */
  ghost predicate KidsApart(nodes: Nodes, kids: set<Key>) {
    forall i, j {:trigger PairApart(nodes, i, j)} :: i in kids && j in kids ==> PairApart(nodes, i, j)
  }

  ghost predicate SiblingsApart(nodes: Nodes, nested: Nested) {
    forall k {:trigger KidsApart(nodes, Kids(nested, k))} :: KidsApart(nodes, Kids(nested, k))
  }

  lemma SameView(nodes: Nodes, nested: Nested, nodes': Nodes, nested': Nested, k: Key, kind: Kind)
    requires SameBelow(nodes, nested, nodes', nested', k, 1) && SiblingsApart(nodes, nested) && Ordered(kind)
    ensures View(nodes, nested, k, kind) == View(nodes', nested', k, kind)
  {
    var s, s' := EnabledKids(nodes, nested, k, kind), EnabledKids(nodes', nested', k, kind);
    forall j ensures j in s <==> j in s' {
      if j in Kids(nested, k) { assert SameBelow(nodes, nested, nodes', nested', j, 0); }
    }
    assert s == s';
    forall j | j in s ensures nodes[j] == nodes'[j] {
      assert SameBelow(nodes, nested, nodes', nested', j, 0);
    }
    var v := View(nodes, nested, k, kind);
    assert IsSorted(v, nodes', s);
    assert KidsApart(nodes, Kids(nested, k));
    forall i, j | i in s && j in s && i != j ensures nodes[i].position != nodes[j].position {
      assert PairApart(nodes, i, j);
    }
    SortedIsUnique(v, View(nodes', nested', k, kind), nodes', s);
  }

  lemma SameShown(nodes: Nodes, nested: Nested, nodes': Nodes, nested': Nested, k: Key, kind: Kind)
    requires SameBelow(nodes, nested, nodes', nested', k, 1)
    ensures forall j :: j in View(nodes, nested, k, kind) <==> j in View(nodes', nested', k, kind)
    ensures forall j :: j in View(nodes, nested, k, kind) ==> ShownAt(nodes, j) == ShownAt(nodes', j)
  {
    var v, w := View(nodes, nested, k, kind), View(nodes', nested', k, kind);
    forall j
      ensures j in v <==> j in w
      ensures j in v ==> ShownAt(nodes, j) == ShownAt(nodes', j)
    {
      assert j in v <==> j in EnabledKids(nodes, nested, k, kind);
      assert j in w <==> j in EnabledKids(nodes', nested', k, kind);
      if j in Kids(nested, k) { assert SameBelow(nodes, nested, nodes', nested', j, 0); }
    }
  }

  lemma SameShownList(nodes: Nodes, nested: Nested, nodes': Nodes, nested': Nested, k: Key, kind: Kind)
    requires SameBelow(nodes, nested, nodes', nested', k, 1) && SiblingsApart(nodes, nested) && Ordered(kind)
    ensures ShownAll(nodes, View(nodes, nested, k, kind)) == ShownAll(nodes', View(nodes', nested', k, kind))
  {
    SameView(nodes, nested, nodes', nested', k, kind);
    SameShown(nodes, nested, nodes', nested', k, kind);
    var v := View(nodes, nested, k, kind);
    forall i | 0 <= i < |v| ensures ShownAt(nodes, v[i]) == ShownAt(nodes', v[i]) {
      assert v[i] in v;
    }
  }

  lemma SameRenderCond(nodes: Nodes, nested: Nested, nodes': Nodes, nested': Nested, k: Key)
    requires SameBelow(nodes, nested, nodes', nested', k, 1) && SiblingsApart(nodes, nested)
    ensures RenderCond(nodes, nested, k) == RenderCond(nodes', nested', k)
  {
    SameShownList(nodes, nested, nodes', nested', k, Act);
    SameShownList(nodes, nested, nodes', nested', k, Anti);
    SameShown(nodes, nested, nodes', nested', k, Regex);
    AnyOrderSameBag(nodes, nodes', View(nodes, nested, k, Regex), View(nodes', nested', k, Regex));
  }

  lemma SameRenderExt(nodes: Nodes, nested: Nested, nodes': Nodes, nested': Nested, k: Key)
    requires SameBelow(nodes, nested, nodes', nested', k, 2) && SiblingsApart(nodes, nested)
    ensures RenderExt(nodes, nested, k) == RenderExt(nodes', nested', k)
  {
    Shallower(nodes, nested, nodes', nested', k, 2);
    SameView(nodes, nested, nodes', nested', k, Cond);
    var v := View(nodes, nested, k, Cond);
    forall i | 0 <= i < |v| ensures RenderCond(nodes, nested, v[i]) == RenderCond(nodes', nested', v[i]) {
      assert v[i] in v;
      assert SameBelow(nodes, nested, nodes', nested', v[i], 1);
      SameRenderCond(nodes, nested, nodes', nested', v[i]);
    }
    assert RenderConds(nodes, nested, v) == RenderConds(nodes', nested', v);
  }

  /** A context whose subtree is the same has the same document. */
  lemma SameRender(nodes: Nodes, nested: Nested, nodes': Nodes, nested': Nested, k: Key)
    requires SameBelow(nodes, nested, nodes', nested', k, 3) && SiblingsApart(nodes, nested)
    ensures Render(nodes, nested, k) == Render(nodes', nested', k)
  {
    Shallower(nodes, nested, nodes', nested', k, 3);
    Shallower(nodes, nested, nodes', nested', k, 2);
    SameView(nodes, nested, nodes', nested', k, Ext);
    var v := View(nodes, nested, k, Ext);
    forall i | 0 <= i < |v| ensures RenderExt(nodes, nested, v[i]) == RenderExt(nodes', nested', v[i]) {
      assert v[i] in v;
      assert SameBelow(nodes, nested, nodes', nested', v[i], 2);
      SameRenderExt(nodes, nested, nodes', nested', v[i]);
    }
    assert RenderExts(nodes, nested, v) == RenderExts(nodes', nested', v);
  }

  lemma {:induction false} Shallower(nodes: Nodes, nested: Nested, nodes': Nodes, nested': Nested, k: Key, depth: nat)
    requires depth > 0 && SameBelow(nodes, nested, nodes', nested', k, depth)
    ensures SameBelow(nodes, nested, nodes', nested', k, depth - 1)
    decreases depth
  {
    if depth > 1 {
      forall j | j in Kids(nested, k) ensures SameBelow(nodes, nested, nodes', nested', j, depth - 2) {
        Shallower(nodes, nested, nodes', nested', j, depth - 1);
      }
    }
  }

  // ----- documents when positions may be equal -----

  /** `v` lists the keys of `s` once each, in any order. */
  ghost predicate Lists(v: seq<Key>, s: set<Key>) {
    NoRepeat(v) && forall k :: k in s <==> k in v
  }

  /** A document of condition `k`: for some orders by position, which equal positions leave open. */
  ghost predicate ShowsCond(nodes: Nodes, nested: Nested, k: Key, d: DocCond) {
    && d.fields == ShownAt(nodes, k)
    && ShowsList(nodes, nested, k, Act, d.actions)
    && ShowsList(nodes, nested, k, Anti, d.antiActions)
    && ShowsBag(nodes, nested, k, d.regexes)
  }

  ghost predicate ShowsList(nodes: Nodes, nested: Nested, k: Key, kind: Kind, ps: seq<Payload>) {
    exists v :: IsSorted(v, nodes, EnabledKids(nodes, nested, k, kind)) && ps == ShownAll(nodes, v)
  }

  ghost predicate ShowsBag(nodes: Nodes, nested: Nested, k: Key, ps: multiset<Payload>) {
    exists v :: Lists(v, EnabledKids(nodes, nested, k, Regex)) && ps == multiset(ShownAll(nodes, v))
  }

  ghost predicate ShowConds(nodes: Nodes, nested: Nested, v: seq<Key>, ds: seq<DocCond>) {
    |ds| == |v| && forall i :: 0 <= i < |v| ==> ShowsCond(nodes, nested, v[i], ds[i])
  }

  ghost predicate ShowsExt(nodes: Nodes, nested: Nested, k: Key, d: DocExt) {
    && d.fields == ShownAt(nodes, k)
    && exists v :: IsSorted(v, nodes, EnabledKids(nodes, nested, k, Cond)) && ShowConds(nodes, nested, v, d.conditions)
  }

  ghost predicate ShowExts(nodes: Nodes, nested: Nested, v: seq<Key>, ds: seq<DocExt>) {
    |ds| == |v| && forall i :: 0 <= i < |v| ==> ShowsExt(nodes, nested, v[i], ds[i])
  }

  /** A document of context `k`. */
  ghost predicate Shows(nodes: Nodes, nested: Nested, k: Key, d: Doc) {
    && d.fields == ShownAt(nodes, k)
    && exists v :: IsSorted(v, nodes, EnabledKids(nodes, nested, k, Ext)) && ShowExts(nodes, nested, v, d.extensions)
  }

  lemma ViewIs(nodes: Nodes, nested: Nested, k: Key, kind: Kind, v: seq<Key>)
    requires SiblingsApart(nodes, nested) && Ordered(kind)
    requires IsSorted(v, nodes, EnabledKids(nodes, nested, k, kind))
    ensures v == View(nodes, nested, k, kind)
  {
    var s := EnabledKids(nodes, nested, k, kind);
    assert KidsApart(nodes, Kids(nested, k));
    forall i, j | i in s && j in s && i != j ensures nodes[i].position != nodes[j].position {
      assert PairApart(nodes, i, j);
    }
    SortedIsUnique(v, View(nodes, nested, k, kind), nodes, s);
  }

  lemma ListIsView(nodes: Nodes, nested: Nested, k: Key, kind: Kind, ps: seq<Payload>)
    requires SiblingsApart(nodes, nested) && Ordered(kind) && ShowsList(nodes, nested, k, kind, ps)
    ensures ps == ShownAll(nodes, View(nodes, nested, k, kind))
  {
    var v :| IsSorted(v, nodes, EnabledKids(nodes, nested, k, kind)) && ps == ShownAll(nodes, v);
    ViewIs(nodes, nested, k, kind, v);
  }

  lemma CondIsRender(nodes: Nodes, nested: Nested, k: Key, d: DocCond)
    requires SiblingsApart(nodes, nested) && ShowsCond(nodes, nested, k, d)
    ensures d == RenderCond(nodes, nested, k)
  {
    ListIsView(nodes, nested, k, Act, d.actions);
    ListIsView(nodes, nested, k, Anti, d.antiActions);
    var v :| Lists(v, EnabledKids(nodes, nested, k, Regex)) && d.regexes == multiset(ShownAll(nodes, v));
    AnyOrderSameBag(nodes, nodes, v, View(nodes, nested, k, Regex));
  }

  lemma CondsAreRenders(nodes: Nodes, nested: Nested, v: seq<Key>, ds: seq<DocCond>)
    requires SiblingsApart(nodes, nested) && ShowConds(nodes, nested, v, ds)
    ensures ds == RenderConds(nodes, nested, v)
  {
    forall i | 0 <= i < |v| ensures ds[i] == RenderCond(nodes, nested, v[i]) {
      CondIsRender(nodes, nested, v[i], ds[i]);
    }
  }

  lemma ExtIsRender(nodes: Nodes, nested: Nested, k: Key, d: DocExt)
    requires SiblingsApart(nodes, nested) && ShowsExt(nodes, nested, k, d)
    ensures d == RenderExt(nodes, nested, k)
  {
    var v :| IsSorted(v, nodes, EnabledKids(nodes, nested, k, Cond)) && ShowConds(nodes, nested, v, d.conditions);
    ViewIs(nodes, nested, k, Cond, v);
    CondsAreRenders(nodes, nested, v, d.conditions);
  }

  lemma ExtsAreRenders(nodes: Nodes, nested: Nested, v: seq<Key>, ds: seq<DocExt>)
    requires SiblingsApart(nodes, nested) && ShowExts(nodes, nested, v, ds)
    ensures ds == RenderExts(nodes, nested, v)
  {
    forall i | 0 <= i < |v| ensures ds[i] == RenderExt(nodes, nested, v[i]) {
      ExtIsRender(nodes, nested, v[i], ds[i]);
    }
  }

  /** When sibling positions differ there is one document of a context. */
  lemma ShowsIsRender(nodes: Nodes, nested: Nested, k: Key, d: Doc)
    requires SiblingsApart(nodes, nested) && Shows(nodes, nested, k, d)
    ensures d == Render(nodes, nested, k)
  {
    var v :| IsSorted(v, nodes, EnabledKids(nodes, nested, k, Ext)) && ShowExts(nodes, nested, v, d.extensions);
    ViewIs(nodes, nested, k, Ext, v);
    ExtsAreRenders(nodes, nested, v, d.extensions);
  }

  lemma SameKids(nodes: Nodes, nested: Nested, nodes': Nodes, nested': Nested, k: Key, kind: Kind)
    requires SameBelow(nodes, nested, nodes', nested', k, 1)
    ensures EnabledKids(nodes', nested', k, kind) == EnabledKids(nodes, nested, k, kind)
    ensures forall j :: j in EnabledKids(nodes, nested, k, kind) ==> j in nodes' && nodes'[j] == nodes[j]
  {
    forall j | j in Kids(nested, k) ensures SameHere(nodes, nested, nodes', nested', j) {
      assert SameBelow(nodes, nested, nodes', nested', j, 0);
    }
  }

  /** A sorted list stays sorted where its members are the same. */
  lemma SortedStays(v: seq<Key>, nodes: Nodes, nodes': Nodes, s: set<Key>)
    requires IsSorted(v, nodes, s) && forall j :: j in s ==> j in nodes' && nodes'[j] == nodes[j]
    ensures IsSorted(v, nodes', s) && ShownAll(nodes', v) == ShownAll(nodes, v)
  {
    forall a | 0 <= a < |v| ensures v[a] in s {
      assert v[a] in v;
    }
  }

  lemma SameShowsList(nodes: Nodes, nested: Nested, nodes': Nodes, nested': Nested, k: Key, kind: Kind,
      ps: seq<Payload>)
    requires SameBelow(nodes, nested, nodes', nested', k, 1) && ShowsList(nodes, nested, k, kind, ps)
    ensures ShowsList(nodes', nested', k, kind, ps)
  {
    var v :| IsSorted(v, nodes, EnabledKids(nodes, nested, k, kind)) && ps == ShownAll(nodes, v);
    SameKids(nodes, nested, nodes', nested', k, kind);
    SortedStays(v, nodes, nodes', EnabledKids(nodes, nested, k, kind));
  }

  lemma SameShowsCond(nodes: Nodes, nested: Nested, nodes': Nodes, nested': Nested, k: Key, d: DocCond)
    requires SameBelow(nodes, nested, nodes', nested', k, 1) && ShowsCond(nodes, nested, k, d)
    ensures ShowsCond(nodes', nested', k, d)
  {
    SameShowsList(nodes, nested, nodes', nested', k, Act, d.actions);
    SameShowsList(nodes, nested, nodes', nested', k, Anti, d.antiActions);
    var v :| Lists(v, EnabledKids(nodes, nested, k, Regex)) && d.regexes == multiset(ShownAll(nodes, v));
    SameKids(nodes, nested, nodes', nested', k, Regex);
    forall a | 0 <= a < |v| ensures ShownAt(nodes', v[a]) == ShownAt(nodes, v[a]) {
      assert v[a] in v;
    }
    assert ShownAll(nodes', v) == ShownAll(nodes, v);
  }

  lemma SameShowsExt(nodes: Nodes, nested: Nested, nodes': Nodes, nested': Nested, k: Key, d: DocExt)
    requires SameBelow(nodes, nested, nodes', nested', k, 2) && ShowsExt(nodes, nested, k, d)
    ensures ShowsExt(nodes', nested', k, d)
  {
    Shallower(nodes, nested, nodes', nested', k, 2);
    var v :| IsSorted(v, nodes, EnabledKids(nodes, nested, k, Cond)) && ShowConds(nodes, nested, v, d.conditions);
    SameKids(nodes, nested, nodes', nested', k, Cond);
    SortedStays(v, nodes, nodes', EnabledKids(nodes, nested, k, Cond));
    forall i | 0 <= i < |v| ensures ShowsCond(nodes', nested', v[i], d.conditions[i]) {
      assert v[i] in v;
      SameShowsCond(nodes, nested, nodes', nested', v[i], d.conditions[i]);
    }
  }

  /** A document stays one of its context while the subtree is the same. */
  lemma SameShows(nodes: Nodes, nested: Nested, nodes': Nodes, nested': Nested, k: Key, d: Doc)
    requires SameBelow(nodes, nested, nodes', nested', k, 3) && Shows(nodes, nested, k, d)
    ensures Shows(nodes', nested', k, d)
  {
    Shallower(nodes, nested, nodes', nested', k, 3);
    Shallower(nodes, nested, nodes', nested', k, 2);
    var v :| IsSorted(v, nodes, EnabledKids(nodes, nested, k, Ext)) && ShowExts(nodes, nested, v, d.extensions);
    SameKids(nodes, nested, nodes', nested', k, Ext);
    SortedStays(v, nodes, nodes', EnabledKids(nodes, nested, k, Ext));
    forall i | 0 <= i < |v| ensures ShowsExt(nodes', nested', v[i], d.extensions[i]) {
      assert v[i] in v;
      SameShowsExt(nodes, nested, nodes', nested', v[i], d.extensions[i]);
    }
  }

  /** Two keys at one position can be exchanged in a sorted list. */
  lemma SwapStaysSorted(v: seq<Key>, nodes: Nodes, s: set<Key>, a: nat, b: nat)
    requires IsSorted(v, nodes, s) && a < |v| && b < |v| && a != b
    requires v[a] in nodes && v[b] in nodes && nodes[v[a]].position == nodes[v[b]].position
    ensures IsSorted(v[a := v[b]][b := v[a]], nodes, s)
  {
    var w := v[a := v[b]][b := v[a]];
    forall k ensures k in s <==> k in w {
      if k in s {
        var c :| 0 <= c < |v| && v[c] == k;
        assert w[if c == a then b else if c == b then a else c] == k;
      }
    }
    forall c | 0 <= c < |v| ensures v[c] in nodes && w[c] in nodes && nodes[v[c]].position == nodes[w[c]].position {
      assert v[c] in v;
    }
    forall c, d | 0 <= c < d < |w| ensures w[c] != w[d] {
      var c' := if c == a then b else if c == b then a else c;
      var d' := if d == a then b else if d == b then a else d;
      assert w[c] == v[c'] && w[d] == v[d'];
    }
  }

  /** Two equal positions among the shown siblings are exactly what leaves the rendered order open. */
  lemma ViewDeterminedIff(nodes: Nodes, s: set<Key>)
    requires s <= nodes.Keys
    ensures (forall v, w :: IsSorted(v, nodes, s) && IsSorted(w, nodes, s) ==> v == w) <==> Apart(nodes, s)
  {
    if Apart(nodes, s) {
      forall v, w | IsSorted(v, nodes, s) && IsSorted(w, nodes, s) ensures v == w {
        SortedIsUnique(v, w, nodes, s);
      }
    } else {
      var v, w := TwoViews(nodes, s);
    }
  }

  lemma TwoViews(nodes: Nodes, s: set<Key>) returns (v: seq<Key>, w: seq<Key>)
    requires s <= nodes.Keys && !Apart(nodes, s)
    ensures IsSorted(v, nodes, s) && IsSorted(w, nodes, s) && v != w
  {
    v := Sorted(nodes, s);
    var i, j :| i in s && j in s && i != j && nodes[i].position == nodes[j].position;
    var a :| 0 <= a < |v| && v[a] == i;
    var b :| 0 <= b < |v| && v[b] == j;
    SwapStaysSorted(v, nodes, s, a, b);
    w := v[a := v[b]][b := v[a]];
    assert w[a] != v[a];
  }
}
