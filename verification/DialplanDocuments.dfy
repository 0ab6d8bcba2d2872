/** What a stored document says, attribute by attribute, read off the cached objects. */
module DialplanDocuments {
  import opened DialplanTree

  /** An element of the document carries the attributes of the object; an object of another kind says nothing. */
  predicate SaysAction(p: Payload, q: Payload) {
    p.ActionFields? ==>
      q.ActionFields? && q.application == p.application && q.data == p.data && q.inline == p.inline
  }

  predicate SaysRegex(p: Payload, q: Payload) {
    p.RegexFields? ==> q.RegexFields? && q.field == p.field && q.expression == p.expression
  }

  predicate SaysExtension(p: Payload, q: Payload) {
    p.ExtensionFields? ==> q.ExtensionFields? && q.name == p.name && q.continues == p.continues
  }

  predicate SaysContext(p: Payload, q: Payload) {
    p.ContextFields? ==> q.ContextFields? && q.name == p.name
  }

  /** Every field of a condition but the day of the month. */
  predicate SaysCondition(p: Payload, q: Payload) {
    p.ConditionFields? ==>
      && q.ConditionFields?
      && q.conditionBreak == p.conditionBreak && q.regex == p.regex
      && q.field == p.field && q.expression == p.expression
      && SaysSchedule(p.schedule, q.schedule)
  }

  predicate SaysSchedule(s: Schedule, t: Schedule) {
    && t.hour == s.hour && t.mon == s.mon && t.mweek == s.mweek && t.wday == s.wday && t.dateTime == s.dateTime
    && t.timeOfDay == s.timeOfDay && t.year == s.year && t.minute == s.minute && t.week == s.week && t.yday == s.yday
    && t.minday == s.minday && t.tzOffset == s.tzOffset && t.dst == s.dst
  }

  /** The enabled children of a kind, by position where the kind has positions, and what each of them says. */
  ghost predicate ByPosition(nodes: Nodes, nested: Nested, k: Key, kind: Kind, v: seq<Key>) {
    && (forall j :: j in v <==> k in nested && j in nested[k] && j.kind == kind && j in nodes && nodes[j].enabled)
    && (forall a, b :: 0 <= a < b < |v| ==> v[a] != v[b])
    && (forall a, b {:trigger v[a], v[b]} :: 0 <= a < b < |v| && v[a] in nodes && v[b] in nodes && kind != Regex ==>
          nodes[v[a]].position <= nodes[v[b]].position)
  }

  ghost predicate ActionsSaid(nodes: Nodes, nested: Nested, k: Key, kind: Kind, ps: seq<Payload>) {
    exists v :: ByPosition(nodes, nested, k, kind, v) && |ps| == |v| &&
      forall i :: 0 <= i < |v| && v[i] in nodes ==> SaysAction(nodes[v[i]].payload, ps[i])
  }

  /** Regexes are written in any order. */
  ghost predicate RegexesSaid(nodes: Nodes, nested: Nested, k: Key, bag: multiset<Payload>) {
    exists v: seq<Key>, ps: seq<Payload> ::
      ByPosition(nodes, nested, k, Regex, v) && |ps| == |v| && bag == multiset(ps) &&
      forall i :: 0 <= i < |v| && v[i] in nodes ==> SaysRegex(nodes[v[i]].payload, ps[i])
  }

  ghost predicate ConditionSaid(nodes: Nodes, nested: Nested, k: Key, d: DocCond) {
    && (k in nodes ==> SaysCondition(nodes[k].payload, d.fields))
    && ActionsSaid(nodes, nested, k, Act, d.actions)
    && ActionsSaid(nodes, nested, k, Anti, d.antiActions)
    && RegexesSaid(nodes, nested, k, d.regexes)
  }

  ghost predicate ExtensionSaid(nodes: Nodes, nested: Nested, k: Key, d: DocExt) {
    && (k in nodes ==> SaysExtension(nodes[k].payload, d.fields))
    && exists v :: ByPosition(nodes, nested, k, Cond, v) && |d.conditions| == |v| &&
         forall i :: 0 <= i < |v| ==> ConditionSaid(nodes, nested, v[i], d.conditions[i])
  }

  ghost predicate ContextSaid(nodes: Nodes, nested: Nested, k: Key, d: Doc) {
    && (k in nodes ==> SaysContext(nodes[k].payload, d.fields))
    && exists v :: ByPosition(nodes, nested, k, Ext, v) && |d.extensions| == |v| &&
         forall i :: 0 <= i < |v| ==> ExtensionSaid(nodes, nested, v[i], d.extensions[i])
  }

  lemma SortedByPosition(nodes: Nodes, nested: Nested, k: Key, kind: Kind, v: seq<Key>)
    requires IsSorted(v, nodes, EnabledKids(nodes, nested, k, kind))
    ensures ByPosition(nodes, nested, k, kind, v)
  {
  }

  lemma ListSaid(nodes: Nodes, nested: Nested, k: Key, kind: Kind, ps: seq<Payload>)
    requires ShowsList(nodes, nested, k, kind, ps)
    ensures ActionsSaid(nodes, nested, k, kind, ps)
  {
    var v :| IsSorted(v, nodes, EnabledKids(nodes, nested, k, kind)) && ps == ShownAll(nodes, v);
    SortedByPosition(nodes, nested, k, kind, v);
  }

  lemma BagSaid(nodes: Nodes, nested: Nested, k: Key, bag: multiset<Payload>)
    requires ShowsBag(nodes, nested, k, bag)
    ensures RegexesSaid(nodes, nested, k, bag)
  {
    var v :| Lists(v, EnabledKids(nodes, nested, k, Regex)) && bag == multiset(ShownAll(nodes, v));
    assert ByPosition(nodes, nested, k, Regex, v);
    var ps := ShownAll(nodes, v);
    assert forall i :: 0 <= i < |v| && v[i] in nodes ==> SaysRegex(nodes[v[i]].payload, ps[i]);
  }

  lemma ShownCondition(nodes: Nodes, nested: Nested, k: Key, d: DocCond)
    requires ShowsCond(nodes, nested, k, d)
    ensures ConditionSaid(nodes, nested, k, d)
  {
    ListSaid(nodes, nested, k, Act, d.actions);
    ListSaid(nodes, nested, k, Anti, d.antiActions);
    BagSaid(nodes, nested, k, d.regexes);
  }

  lemma ShownExtension(nodes: Nodes, nested: Nested, k: Key, d: DocExt)
    requires ShowsExt(nodes, nested, k, d)
    ensures ExtensionSaid(nodes, nested, k, d)
  {
    var v :| IsSorted(v, nodes, EnabledKids(nodes, nested, k, Cond)) && ShowConds(nodes, nested, v, d.conditions);
    SortedByPosition(nodes, nested, k, Cond, v);
    forall i | 0 <= i < |v| ensures ConditionSaid(nodes, nested, v[i], d.conditions[i]) {
      ShownCondition(nodes, nested, v[i], d.conditions[i]);
    }
  }

  /** A stored document says, for every enabled extension, condition, action, anti-action and regex of its context, what
      the cached object says, in position order. */
  lemma ShownContext(nodes: Nodes, nested: Nested, k: Key, d: Doc)
    requires Shows(nodes, nested, k, d)
    ensures ContextSaid(nodes, nested, k, d)
  {
    var v :| IsSorted(v, nodes, EnabledKids(nodes, nested, k, Ext)) && ShowExts(nodes, nested, v, d.extensions);
    SortedByPosition(nodes, nested, k, Ext, v);
    forall i | 0 <= i < |v| ensures ExtensionSaid(nodes, nested, v[i], d.extensions[i]) {
      ShownExtension(nodes, nested, v[i], d.extensions[i]);
    }
  }
}
