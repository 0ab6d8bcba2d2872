/** What every edit of the dialplan writes to the cached objects, the maps and the tables, and what it leaves alone. */
module DialplanEffects {
  import opened DialplanSteps
  import opened DialplanTables
  import opened DialplanTree

  /** Every other item is as before: its object, its row, its place in the flat maps, and what hangs from it. */
  predicate Untouched(s: Cache, t: Cache, j: Key) {
    && (j in s.nodes <==> j in t.nodes) && (j in s.nodes && j in t.nodes ==> t.nodes[j] == s.nodes[j])
    && (j in s.rows <==> j in t.rows) && (j in s.rows && j in t.rows ==> t.rows[j] == s.rows[j])
    && (j in s.flat <==> j in t.flat)
  }

  ghost predicate OthersUntouched(s: Cache, t: Cache, changed: set<Key>) {
    forall j {:trigger Untouched(s, t, j)} :: j !in changed ==> Untouched(s, t, j)
  }

  /** What hangs from each item, but for `k`, is as before. */
  ghost predicate SameKidsBut(s: Cache, t: Cache, k: Key) {
    forall h :: h != k ==> Kids(t.nested, h) == Kids(s.nested, h)
  }

  lemma ContextWritten(s: Cache, id: int, name: string)
    requires Key(Ctx, id) !in s.nodes
    ensures var k, t := Key(Ctx, id), Edited(s, AddContext(id, name));
            && OthersUntouched(s, t, {k}) && SameKidsBut(s, t, k) && Kids(t.nested, k) == {}
            && k in t.flat && k in t.nodes && k in t.rows && t.nodes[k] == t.rows[k]
            && t.nodes[k].payload == ContextFields(name)
            && t.noProceed == s.noProceed
  {
    var k, t := Key(Ctx, id), Edited(s, AddContext(id, name));
    forall h | h != k ensures Kids(t.nested, h) == Kids(s.nested, h) {
      NewContextKids(s.nested, k, h);
    }
  }

  /** A created item is in object and row what was sent, and the last child of its parent. */
  lemma ItemWritten(s: Cache, k: Key, node: Node)
    requires Accepted(s, Add(k, node)) && node.parent != k
    ensures var t := Edited(s, Add(k, node));
            && OthersUntouched(s, t, {k}) && k in t.flat
            && k in t.nodes && t.nodes[k] == node && k in t.rows && t.rows[k] == node
            && Kids(t.nested, node.parent) == Kids(s.nested, node.parent) + {k} && Kids(t.nested, k) == {}
            && (forall h :: h != k && h != node.parent ==> Kids(t.nested, h) == Kids(s.nested, h))
            && t.noProceed == s.noProceed
  {
    var t := Edited(s, Add(k, node));
    forall h
      ensures Kids(t.nested, h) ==
              if h == node.parent then Kids(s.nested, h) + {k} else if h == k then {} else Kids(s.nested, h)
    {
      LinkedKids(s.nested, node.parent, k, h);
    }
  }

  /** A deleted item leaves its parent; what remains is as it was. */
  lemma ItemRemoved(s: Cache, k: Key)
    requires Tied(s) && k in s.flat
    ensures var t := Edited(s, Remove(k));
            && k !in t.flat && k !in t.rows && t.nodes == s.nodes && t.noProceed == s.noProceed
            && (forall j :: j in t.rows ==> j in s.rows && t.rows[j] == s.rows[j])
            && (forall j :: j in t.flat <==> j in t.rows)
            && (k.kind != Ctx ==> k in s.nodes && k !in Kids(t.nested, s.nodes[k].parent))
            && (forall h, j :: j != k ==> (j in Kids(t.nested, h) <==> j in Kids(s.nested, h)))
  {
    var t := Edited(s, Remove(k));
    DeleteIsCascade(s, k);
    assert Under(s.nodes, k, k);
    assert t.rows == Cascade(s.rows, k) && k !in t.flat;
    forall h
      ensures Kids(t.nested, h) ==
              if k.kind != Ctx && h == s.nodes[k].parent then Kids(s.nested, h) - {k} else Kids(s.nested, h)
    {
      UnlinkedKids(s.nodes, s.nested, k, h);
    }
  }

  predicate NoSchedule(s: Schedule) {
    && s.hour == s.mday == s.mon == s.mweek == s.wday == s.dateTime == s.timeOfDay == ""
    && s.year == s.minute == s.week == s.yday == s.minday == s.tzOffset == s.dst == ""
  }

  /** An updated condition keeps its field and expression when a field is sent, else its regex mode when one is sent,
      else its schedule, and the other two modes are emptied. */
  predicate ConditionWritten(p: Payload, q: Payload)
    requires p.ConditionFields?
  {
    && q.ConditionFields? && q.conditionBreak == p.conditionBreak
    && (p.field != "" ==> q.field == p.field && q.expression == p.expression && q.regex == "" && NoSchedule(q.schedule))
    && (p.field == "" && p.regex != "" ==>
          q.field == "" && q.expression == "" && q.regex == p.regex && NoSchedule(q.schedule))
    && (p.field == "" && p.regex == "" ==>
        q.field == "" && q.expression == "" && q.regex == "" && q.schedule == p.schedule)
  }

  /** An update writes the same fields to object and row of its item, and nothing else. */
  lemma ItemUpdated(s: Cache, k: Key, payload: Payload)
    requires k in s.nodes && k in s.rows && k in s.flat
    ensures var t := Edited(s, Update(k, payload));
            && OthersUntouched(s, t, {k}) && t.nested == s.nested && t.flat == s.flat && t.noProceed == s.noProceed
            && k in t.nodes && k in t.rows && t.nodes[k].payload == t.rows[k].payload
            && t.nodes[k] == s.nodes[k].(payload := t.nodes[k].payload)
            && t.rows[k] == s.rows[k].(payload := t.rows[k].payload)
            && (if k.kind == Cond && payload.ConditionFields? then ConditionWritten(payload, t.nodes[k].payload)
                else t.nodes[k].payload == payload)
  {
  }

  /** A switch sets the object; of a row it sets the switch, but of a regex the `field` column. */
  lemma ItemSwitched(s: Cache, k: Key, on: bool)
    requires k in s.nodes && k in s.rows && k in s.flat
    ensures var t := Edited(s, Switch(k, on));
            && OthersUntouched(s, t, {k}) && t.nested == s.nested && t.flat == s.flat && t.noProceed == s.noProceed
            && k in t.nodes && t.nodes[k] == s.nodes[k].(enabled := on) && k in t.rows
            && (k.kind != Regex ==> t.rows[k] == s.rows[k].(enabled := on))
            && (k.kind == Regex && s.rows[k].payload.RegexFields? ==>
                  t.rows[k] == s.rows[k].(payload := s.rows[k].payload.(field := if on then "true" else "false")))
  {
  }

  predicate NameWritten(node: Node, node': Node, name: string) {
    && node' == node.(payload := node'.payload)
    && (node.payload.ContextFields? ==> node'.payload == ContextFields(name))
    && (node.payload.ExtensionFields? ==> node'.payload == ExtensionFields(name, node.payload.continues))
  }

  /** A rename writes the name to the row and to the objects that are hit, and leaves their other fields. */
  lemma ItemRenamed(s: Cache, k: Key, name: string, hit: set<Key>)
    requires k in s.rows && k in s.nodes
    ensures var t := Edited(s, Rename(k, name, hit));
            && OthersUntouched(s, t, hit + {k})
            && t.nested == s.nested && t.flat == s.flat && t.noProceed == s.noProceed
            && k in t.rows && NameWritten(s.rows[k], t.rows[k], name)
            && (forall j :: j != k && j in s.rows ==> j in t.rows && t.rows[j] == s.rows[j])
            && (forall j :: j in hit && j in s.nodes ==> j in t.nodes && NameWritten(s.nodes[j], t.nodes[j], name))
            && (k !in hit ==> k in t.nodes && t.nodes[k] == s.nodes[k])
  {
  }

  lemma ObjectsMoved(nodes: Nodes, k: Key, n: int, among: set<Key>, nodes': Nodes)
    requires k in nodes && nodes' == MovedNodes(nodes, k, n, among)
    ensures nodes'.Keys == nodes.Keys && nodes'[k].position == n
    ensures forall j :: j in nodes ==> nodes'[j] == nodes[j].(position := nodes'[j].position)
    ensures forall j :: j in nodes && (j.kind != k.kind || nodes[j].parent != nodes[k].parent) ==> nodes'[j] == nodes[j]
  {
  }

  lemma RowsMoved(rows: Nodes, k: Key, p: int, n: int, rows': Nodes)
    requires k in rows && rows' == MovedRows(rows, k, p, n)
    ensures rows'.Keys == rows.Keys
    ensures forall j :: j in rows ==> rows'[j] == rows[j].(position := rows'[j].position)
    ensures forall j :: j in rows && j.kind != k.kind ==> rows'[j] == rows[j]
  {
    RunKeepsParents(MoveOf(rows, k, p, n), TableOf(rows, k.kind));
  }

  /** A move changes positions of one parent's items of one kind only; the moved object stands at the target. */
  lemma ItemMoved(s: Cache, k: Key, n: int, t: Cache)
    requires k in s.nodes && k in s.rows && k in s.flat && t == Edited(s, Move(k, n))
    ensures t.nested == s.nested && t.flat == s.flat && t.noProceed == s.noProceed
    ensures t.nodes.Keys == s.nodes.Keys && t.nodes[k].position == n
    ensures forall j :: j in s.nodes ==> t.nodes[j] == s.nodes[j].(position := t.nodes[j].position)
    ensures forall j :: j in s.nodes && (j.kind != k.kind || s.nodes[j].parent != s.nodes[k].parent) ==>
              t.nodes[j] == s.nodes[j]
    ensures t.rows.Keys == s.rows.Keys
    ensures forall j :: j in s.rows ==> t.rows[j] == s.rows[j].(position := t.rows[j].position)
    ensures forall j :: j in s.rows && j.kind != k.kind ==> t.rows[j] == s.rows[j]
  {
    ObjectsMoved(s.nodes, k, n, Kids(s.nested, s.nodes[k].parent), t.nodes);
    RowsMoved(s.rows, k, s.nodes[k].position, n, t.rows);
  }

  lemma SettingWritten(s: Cache, on: bool)
    ensures Edited(s, SetNoProceed(on)) == s.(noProceed := on)
    ensures Edited(s, Refused) == s
  {
  }
}
