/** Schema migration 0.3.5: one bulk UPDATE makes room before every local bridge, one INSERT fills it with a timeout. */
module Migration {
  import opened AnyOrder

  datatype Action = Action(condition: int, position: int, application: string, data: string, enabled: bool)
  type Actions = map<int, Action>

  /** The joined tables: condition to extension, extension to context, context to name. */
  datatype Schema = Schema(conditions: map<int, int>, extensions: map<int, int>, contexts: map<int, string>)

  predicate InDefault(schema: Schema, condition: int) {
    && condition in schema.conditions
    && schema.conditions[condition] in schema.extensions
    && schema.extensions[schema.conditions[condition]] in schema.contexts
    && schema.contexts[schema.extensions[schema.conditions[condition]]] == "default"
  }

  /** LIKE with a trailing %, where an underscore in the pattern stands for any character. */
  predicate Like(data: string, pattern: string) {
    |pattern| <= |data| && forall k :: 0 <= k < |pattern| ==> pattern[k] == '_' || pattern[k] == data[k]
  }

  predicate IsTimeout(a: Action) {
    a.application == "set" && Like(a.data, "originate_timeout=")
  }

  /** An enabled bridge to a registered user. */
  predicate IsLocalBridge(a: Action) {
    a.enabled && a.application == "bridge" && Like(a.data, "user/")
  }

  predicate HasTimeout(t: Actions, condition: int) {
    exists j :: j in t && t[j].condition == condition && IsTimeout(t[j])
  }

  /** The bridges both statements select: in the default context, in a condition without a timeout. */
  function Bridges(schema: Schema, t: Actions): (ids: set<int>)
    ensures forall i :: i in ids <==>
              i in t && IsLocalBridge(t[i]) && InDefault(schema, t[i].condition) && !HasTimeout(t, t[i].condition)
  {
    set i | i in t && IsLocalBridge(t[i]) && InDefault(schema, t[i].condition) && !HasTimeout(t, t[i].condition)
  }

  /** At or after some bridge of its condition, that is, at or after the lowest one. */
  predicate Shifted(bridges: set<int>, t: Actions, i: int)
    requires bridges <= t.Keys
  {
    i in t && exists b :: b in bridges && t[b].condition == t[i].condition && t[b].position <= t[i].position
  }

  /** After the UPDATE. */
  function Widened(bridges: set<int>, t: Actions): Actions
    requires bridges <= t.Keys
  {
    map i | i in t :: if Shifted(bridges, t, i) then t[i].(position := t[i].position + 1) else t[i]
  }

  function TimeoutBefore(bridge: Action): Action {
    Action(bridge.condition, bridge.position - 1, "set", "originate_timeout=45", true)
  }

  /** `bridgeOf` names, for the id of every inserted timeout, the bridge it belongs to; each of `bridges` has exactly
      one. */
  ghost predicate OnePerBridge(bridges: set<int>, t: Actions, bridgeOf: map<int, int>) {
    && (forall i :: i in bridgeOf ==> i !in t && bridgeOf[i] in bridges && bridgeOf[i] in t)
    && (forall i, j :: i in bridgeOf && j in bridgeOf && i != j ==> bridgeOf[i] != bridgeOf[j])
    && (forall b :: b in bridges ==> exists i :: i in bridgeOf && bridgeOf[i] == b)
  }

  /** After the INSERT. */
  function Inserted(o: Actions, bridgeOf: map<int, int>): Actions
    requires forall i :: i in bridgeOf ==> bridgeOf[i] in o
  {
    map i | i in o.Keys + bridgeOf.Keys :: if i in bridgeOf then TimeoutBefore(o[bridgeOf[i]]) else o[i]
  }

  ghost predicate Migrated(bridges: set<int>, t: Actions, bridgeOf: map<int, int>, m: Actions) {
    bridges <= t.Keys && OnePerBridge(bridges, t, bridgeOf) && m == Inserted(Widened(bridges, t), bridgeOf)
  }

  ghost predicate Distinct(t: Actions) {
    forall i, j :: i in t && j in t && i != j && t[i].condition == t[j].condition ==> t[i].position != t[j].position
  }

  /** Another bridge of the condition stands lower than `b`, and some action stands right before `b`. */
  ghost predicate Crowded(bridges: set<int>, t: Actions, b: int)
    requires bridges <= t.Keys
  {
    && b in bridges
    && (exists a :: a in bridges && t[a].condition == t[b].condition && t[a].position < t[b].position)
    && (exists r :: r in t && t[r].condition == t[b].condition && t[r].position == t[b].position - 1)
  }

  /** The UPDATE keeps the order of old actions; a bridge moves up by exactly one. */
  lemma WidenedKeepsOrder(bridges: set<int>, t: Actions, i: int, j: int)
    requires bridges <= t.Keys && i in t && j in t && t[i].condition == t[j].condition
    ensures t[i].position < t[j].position <==> Widened(bridges, t)[i].position < Widened(bridges, t)[j].position
    ensures i in bridges ==> Widened(bridges, t)[i].position == t[i].position + 1
  {
    if t[i].position < t[j].position && Shifted(bridges, t, i) {
      assert Shifted(bridges, t, j);
    }
    if t[j].position <= t[i].position && Shifted(bridges, t, j) {
      assert Shifted(bridges, t, i);
    }
  }

  /** Positions stay distinct exactly when no later bridge of a condition is directly preceded by another action;
      one bridge per condition is always fine. */
  lemma MigratedDistinctIff(bridges: set<int>, t: Actions, bridgeOf: map<int, int>, m: Actions)
    requires Distinct(t) && Migrated(bridges, t, bridgeOf, m)
    ensures Distinct(m) <==> forall b :: b in bridges ==> !Crowded(bridges, t, b)
  {
    if b :| b in bridges && Crowded(bridges, t, b) {
      CrowdedClash(bridges, t, bridgeOf, m, b);
    } else {
      forall i, j | i in m && j in m && i != j && m[i].condition == m[j].condition
        ensures m[i].position != m[j].position
      {
        if i in t || j !in t {
          PairApart(bridges, t, bridgeOf, m, i, j);
        } else {
          PairApart(bridges, t, bridgeOf, m, j, i);
        }
      }
    }
  }

  lemma CrowdedClash(bridges: set<int>, t: Actions, bridgeOf: map<int, int>, m: Actions, b: int)
    requires Migrated(bridges, t, bridgeOf, m) && Crowded(bridges, t, b)
    ensures !Distinct(m)
  {
    var r :| r in t && t[r].condition == t[b].condition && t[r].position == t[b].position - 1;
    var a :| a in bridges && t[a].condition == t[b].condition && t[a].position < t[b].position;
    assert Shifted(bridges, t, r);
    WidenedKeepsOrder(bridges, t, b, b);
    var x :| x in bridgeOf && bridgeOf[x] == b;
    assert m[x].position == m[r].position && m[x].condition == m[r].condition && x != r;
  }

  lemma PairApart(bridges: set<int>, t: Actions, bridgeOf: map<int, int>, m: Actions, i: int, j: int)
    requires Distinct(t) && Migrated(bridges, t, bridgeOf, m)
    requires forall b :: b in bridges ==> !Crowded(bridges, t, b)
    requires i in m && j in m && i != j && m[i].condition == m[j].condition && (i in t || j !in t)
    ensures m[i].position != m[j].position
  {
    if i in t && j in t {
      WidenedKeepsOrder(bridges, t, i, j);
      WidenedKeepsOrder(bridges, t, j, i);
    } else if i in t {
      TimeoutIsFree(bridges, t, bridgeOf[j], i);
    } else {
      WidenedKeepsOrder(bridges, t, bridgeOf[i], bridgeOf[j]);
      WidenedKeepsOrder(bridges, t, bridgeOf[j], bridgeOf[i]);
    }
  }

  lemma TimeoutIsFree(bridges: set<int>, t: Actions, b: int, r: int)
    requires Distinct(t) && bridges <= t.Keys && b in bridges && r in t && t[r].condition == t[b].condition
    requires !Crowded(bridges, t, b)
    ensures Widened(bridges, t)[r].position != TimeoutBefore(Widened(bridges, t)[b]).position
  {
    WidenedKeepsOrder(bridges, t, b, b);
    assert t[r].position >= t[b].position ==> Shifted(bridges, t, r);
    if Shifted(bridges, t, r) && t[r].position == t[b].position - 1 {
      var a :| a in bridges && t[a].condition == t[r].condition && t[a].position <= t[r].position;
      assert Crowded(bridges, t, b);
    }
  }

  /** What the migration keeps: contents, the order of old actions, other conditions. */
  lemma MigratedKeeps(bridges: set<int>, t: Actions, bridgeOf: map<int, int>, m: Actions)
    requires Migrated(bridges, t, bridgeOf, m)
    ensures forall i :: i in t ==> i in m && m[i] == t[i].(position := m[i].position)
    ensures forall i, j :: i in t && j in t && t[i].condition == t[j].condition ==>
              (t[i].position < t[j].position <==> m[i].position < m[j].position)
    ensures forall i :: i in t && (forall b :: b in bridges ==> t[b].condition != t[i].condition) ==> m[i] == t[i]
  {
    forall i, j | i in t && j in t && t[i].condition == t[j].condition
      ensures t[i].position < t[j].position <==> m[i].position < m[j].position
    {
      WidenedKeepsOrder(bridges, t, i, j);
    }
  }

  /** What it adds: every bridge has a timeout in its condition, immediately before it, and there is nothing else
      new. */
  lemma MigratedAdds(bridges: set<int>, t: Actions, bridgeOf: map<int, int>, m: Actions)
    requires Migrated(bridges, t, bridgeOf, m)
    ensures m.Keys == t.Keys + bridgeOf.Keys
    ensures forall i :: i in bridgeOf ==>
              var b := bridgeOf[i];
              && m[i].condition == t[b].condition && IsTimeout(m[i])
              && m[i].position == m[b].position - 1 == t[b].position
  {
    forall i | i in bridgeOf ensures m[bridgeOf[i]].position == t[bridgeOf[i]].position + 1 {
      WidenedKeepsOrder(bridges, t, bridgeOf[i], bridgeOf[i]);
    }
    forall i | i in bridgeOf ensures IsTimeout(m[i]) {
      assert m[i] == TimeoutBefore(m[bridgeOf[i]]);
    }
  }

  lemma NoBridgeLeft(schema: Schema, t: Actions, bridgeOf: map<int, int>, m: Actions, i: int)
    requires Migrated(Bridges(schema, t), t, bridgeOf, m)
    ensures i !in Bridges(schema, m)
  {
    MigratedAdds(Bridges(schema, t), t, bridgeOf, m);
    if i in t && HasTimeout(t, t[i].condition) {
      var j :| j in t && t[j].condition == t[i].condition && IsTimeout(t[j]);
      assert j in m && m[j].condition == m[i].condition && IsTimeout(m[j]);
      assert HasTimeout(m, m[i].condition);
    } else if i in Bridges(schema, t) {
      var j :| j in bridgeOf && bridgeOf[j] == i;
      assert HasTimeout(m, m[i].condition);
    } else if i in bridgeOf {
      assert m[i].application == "set";
    }
  }

  /** Run again, the migration finds no bridge and changes nothing. */
  lemma MigrationIsIdempotent(schema: Schema, t: Actions, bridgeOf: map<int, int>, m: Actions, again: map<int,
      int>, m': Actions)
    requires Migrated(Bridges(schema, t), t, bridgeOf, m) && Migrated(Bridges(schema, m), m, again, m')
    ensures again == map[] && m' == m
  {
    forall i ensures i !in Bridges(schema, m) {
      NoBridgeLeft(schema, t, bridgeOf, m, i);
    }
    assert Bridges(schema, m) == {};
    assert forall i :: i !in again;
    assert again == map[];
    assert Widened({}, m) == m;
  }

  // ----- the outcome on rows and strings -----

  /** The condition lies in an extension of a context named "default". */
  ghost predicate InDefaultContext(schema: Schema, condition: int) {
    exists extension, context :: Lies(schema, condition, extension, context) && schema.contexts[context] == "default"
  }

  predicate Lies(schema: Schema, condition: int, extension: int, context: int) {
    && condition in schema.conditions && schema.conditions[condition] == extension
    && extension in schema.extensions && schema.extensions[extension] == context
    && context in schema.contexts
  }

  /** An underscore in a pattern stands for any character, so the tenth one of the data may be any. */
  predicate SetsTimeout(a: Action) {
    a.application == "set" && |a.data| >= 18 && a.data[..9] == "originate" && a.data[10..18] == "timeout="
  }

  ghost predicate Eligible(schema: Schema, t: Actions, i: int) {
    && i in t && t[i].enabled && t[i].application == "bridge" && "user/" <= t[i].data
    && InDefaultContext(schema, t[i].condition)
    && (forall j :: j in t && t[j].condition == t[i].condition ==> !SetsTimeout(t[j]))
  }

  /** Before every eligible bridge one row is inserted that sets the timeout; every row at or after one in its condition
      moves up by one, and nothing else changes. */
  ghost predicate Outcome(schema: Schema, t: Actions, bridgeOf: map<int, int>, m: Actions) {
    && m.Keys == t.Keys + bridgeOf.Keys && t.Keys !! bridgeOf.Keys
    && (forall b :: Eligible(schema, t, b) <==> Served(bridgeOf, b))
    && (forall x, y :: x in bridgeOf && y in bridgeOf && x != y ==> bridgeOf[x] != bridgeOf[y])
    && (forall x :: x in bridgeOf ==> bridgeOf[x] in t && m[x] == Timeout(t[bridgeOf[x]]))
    && (forall i :: i in t ==> m[i] == t[i].(position := t[i].position + if Behind(schema, t, i) then 1 else 0))
  }

  ghost predicate Served(bridgeOf: map<int, int>, b: int) {
    exists x :: x in bridgeOf && bridgeOf[x] == b
  }

  /** The inserted row takes the place that the bridge had. */
  function Timeout(bridge: Action): Action {
    Action(bridge.condition, bridge.position, "set", "originate_timeout=45", true)
  }

  ghost predicate Behind(schema: Schema, t: Actions, i: int)
    requires i in t
  {
    exists b :: Eligible(schema, t, b) && t[b].condition == t[i].condition && t[b].position <= t[i].position
  }

  lemma LikePatterns(data: string)
    ensures Like(data, "user/") <==> "user/" <= data
    ensures Like(data, "originate_timeout=") <==>
            |data| >= 18 && data[..9] == "originate" && data[10..18] == "timeout="
  {
    var pattern := "originate_timeout=";
    assert pattern[..9] == "originate" && pattern[10..18] == "timeout=" && pattern[9] == '_';
    if |data| >= 18 && data[..9] == "originate" && data[10..18] == "timeout=" {
      forall k | 0 <= k < 18 ensures pattern[k] == '_' || pattern[k] == data[k] {
        if k < 9 {
          assert data[..9][k] == pattern[..9][k];
        } else if k > 9 {
          assert data[10..18][k - 10] == pattern[10..18][k - 10];
        }
      }
    }
  }

  lemma EligibleIff(schema: Schema, t: Actions, i: int)
    ensures Eligible(schema, t, i) <==> i in Bridges(schema, t)
  {
    if i in t {
      LikePatterns(t[i].data);
      if InDefault(schema, t[i].condition) {
        var extension := schema.conditions[t[i].condition];
        assert Lies(schema, t[i].condition, extension, schema.extensions[extension]);
      }
      forall j | j in t ensures SetsTimeout(t[j]) <==> IsTimeout(t[j]) {
        LikePatterns(t[j].data);
      }
    }
  }

  lemma OldRowAfter(schema: Schema, t: Actions, bridgeOf: map<int, int>, m: Actions, i: int)
    requires Migrated(Bridges(schema, t), t, bridgeOf, m) && i in t
    ensures i in m && m[i] == t[i].(position := t[i].position + if Behind(schema, t, i) then 1 else 0)
  {
    BehindIff(schema, t, i);
  }

  lemma NewRowAfter(bridges: set<int>, t: Actions, bridgeOf: map<int, int>, m: Actions, x: int)
    requires Migrated(bridges, t, bridgeOf, m) && x in bridgeOf
    ensures x !in t && bridgeOf[x] in t && x in m && m[x] == Timeout(t[bridgeOf[x]])
  {
    WidenedKeepsOrder(bridges, t, bridgeOf[x], bridgeOf[x]);
  }

  lemma ServedIff(schema: Schema, t: Actions, bridgeOf: map<int, int>, b: int)
    requires OnePerBridge(Bridges(schema, t), t, bridgeOf)
    ensures Eligible(schema, t, b) <==> Served(bridgeOf, b)
  {
    EligibleIff(schema, t, b);
  }

  lemma KeysAfter(bridges: set<int>, t: Actions, bridgeOf: map<int, int>, m: Actions)
    requires Migrated(bridges, t, bridgeOf, m)
    ensures m.Keys == t.Keys + bridgeOf.Keys && t.Keys !! bridgeOf.Keys
    ensures forall x, y :: x in bridgeOf && y in bridgeOf && x != y ==> bridgeOf[x] != bridgeOf[y]
  {
  }

  /** What the transaction commits, for any rows and any schema. */
  lemma MigratedOutcome(schema: Schema, t: Actions, bridgeOf: map<int, int>, m: Actions)
    requires Migrated(Bridges(schema, t), t, bridgeOf, m)
    ensures Outcome(schema, t, bridgeOf, m)
  {
    KeysAfter(Bridges(schema, t), t, bridgeOf, m);
    forall b ensures Eligible(schema, t, b) <==> Served(bridgeOf, b) {
      ServedIff(schema, t, bridgeOf, b);
    }
    forall x | x in bridgeOf ensures bridgeOf[x] in t && m[x] == Timeout(t[bridgeOf[x]]) {
      NewRowAfter(Bridges(schema, t), t, bridgeOf, m, x);
    }
    forall i | i in t
      ensures i in m && m[i] == t[i].(position := t[i].position + if Behind(schema, t, i) then 1 else 0)
    {
      OldRowAfter(schema, t, bridgeOf, m, i);
    }
  }

  lemma BehindIff(schema: Schema, t: Actions, i: int)
    requires i in t
    ensures Behind(schema, t, i) <==> Shifted(Bridges(schema, t), t, i)
  {
    if b :| Eligible(schema, t, b) && t[b].condition == t[i].condition && t[b].position <= t[i].position {
      EligibleIff(schema, t, b);
    }
    if b :| b in Bridges(schema, t) && t[b].condition == t[i].condition && t[b].position <= t[i].position {
      EligibleIff(schema, t, b);
    }
  }

  class ActionsTable {
    var rows: Actions
    var nextId: int

    constructor ()
      ensures rows == map[] && nextId == 1
    {
      rows, nextId := map[], 1;
    }

    /** The transaction; `faults` says which database calls fail (0 begin, 1 update, 2 insert, 3 version, 4 commit). */
    method Migrate(schema: Schema, instanceId: int, faults: set<nat>) returns (ok: bool)
      requires FreshFrom(rows, nextId)
      modifies this
      ensures FreshFrom(rows, nextId)
      ensures !ok ==> rows == old(rows)
      ensures ok ==> exists bridgeOf :: Migrated(Bridges(schema, old(rows)), old(rows), bridgeOf, rows)
                                        && Outcome(schema, old(rows), bridgeOf, rows)
      ensures ok <==> instanceId != 0 && forall k :: k in faults ==> k > 4
    {
      if instanceId == 0 || 0 in faults { return false; }
      var start := rows;
      if 1 in faults { return false; }
      UpdatePositions(schema);
      if 2 in faults { rows := start; return false; }
      WidenedSameBridges(schema, start);
      ghost var bridgeOf := InsertTimeouts(schema);
      assert Migrated(Bridges(schema, start), start, bridgeOf, rows);
      MigratedOutcome(schema, start, bridgeOf, rows);
      if 3 in faults || 4 in faults { rows := start; return false; }
      return true;
    }

    /** UPDATE ... FROM target: every action at or above the lowest bridge of its condition moves up. */
    method UpdatePositions(schema: Schema)
      modifies this`rows
      ensures rows == Widened(Bridges(schema, old(rows)), old(rows))
    {
      var bridges := Bridges(schema, rows);
      var lowest := LowestBridges(bridges, rows);
      rows := Raise(bridges, lowest, rows);
    }

    /** INSERT ... SELECT over the widened table; its NOT EXISTS sees the table as it was when the statement began. */
    method InsertTimeouts(schema: Schema) returns (ghost bridgeOf: map<int, int>)
      requires FreshFrom(rows, nextId)
      modifies this
      ensures FreshFrom(rows, nextId) && nextId >= old(nextId)
      ensures OnePerBridge(Bridges(schema, old(rows)), old(rows), bridgeOf) && rows == Inserted(old(rows), bridgeOf)
    {
      ghost var start := rows;
      var bridges := Bridges(schema, rows);
      var todo := bridges;
      bridgeOf := map[];
      while todo != {}
        invariant todo <= bridges && FreshFrom(rows, nextId) && nextId >= old(nextId)
        invariant OnePerBridge(bridges - todo, start, bridgeOf) && rows == Inserted(start, bridgeOf)
        decreases todo
      {
        var b := Pick(todo);
        InsertStep(bridges - todo, start, bridgeOf, b, nextId);
        assert bridges - todo + {b} == bridges - (todo - {b});
        todo := todo - {b};
        bridgeOf := bridgeOf[nextId := b];
        rows := rows[nextId := TimeoutBefore(rows[b])];
        nextId := nextId + 1;
      }
      assert bridges - {} == bridges;
    }
  }

  lemma RaisedAt(bridges: set<int>, lowest: map<int, int>, t: Actions, i: int)
    requires bridges <= t.Keys && i in t
    requires Shifted(bridges, t, i) <==> t[i].condition in lowest && t[i].position >= lowest[t[i].condition]
    ensures Widened(bridges, t)[i] ==
            if t[i].condition in lowest &&
                t[i].position >= lowest[t[i].condition] then t[i].(position := t[i].position + 1)
            else t[i]
  {
  }

  method Raise(ghost bridges: set<int>, lowest: map<int, int>, t: Actions) returns (rows: Actions)
    requires bridges <= t.Keys
    requires forall i :: i in t ==>
               (Shifted(bridges, t, i) <==> t[i].condition in lowest && t[i].position >= lowest[t[i].condition])
    ensures rows == Widened(bridges, t)
  {
    ghost var target := Widened(bridges, t);
    rows := t;
    var todo := t.Keys;
    while todo != {}
      invariant todo <= t.Keys == rows.Keys
      invariant forall i :: i in t ==> rows[i] == (if i in todo then t else target)[i]
      decreases todo
    {
      var i := Pick(todo);
      todo := todo - {i};
      var c := rows[i].condition;
      RaisedAt(bridges, lowest, t, i);
      if c in lowest && rows[i].position >= lowest[c] {
        rows := rows[i := rows[i].(position := rows[i].position + 1)];
      }
    }
    assert rows == target;
  }

  /** MIN(position) GROUP BY condition over the bridges. */
  method LowestBridges(bridges: set<int>, t: Actions) returns (lowest: map<int, int>)
    requires bridges <= t.Keys
    ensures forall i :: i in t ==>
              (Shifted(bridges, t, i) <==> t[i].condition in lowest && t[i].position >= lowest[t[i].condition])
  {
    lowest := map[];
    var todo := bridges;
    while todo != {}
      invariant todo <= bridges
      invariant forall b :: b in bridges - todo ==> t[b].condition in lowest && lowest[t[b].condition] <= t[b].position
      invariant forall c :: c in lowest ==> exists b ::
                  b in bridges && t[b].condition == c && t[b].position == lowest[c]
      decreases todo
    {
      var b := Pick(todo);
      todo := todo - {b};
      var c := t[b].condition;
      if c !in lowest || t[b].position < lowest[c] {
        lowest := lowest[c := t[b].position];
      }
    }
  }

  /** The serial column has not handed out any id from `next` on. */
  ghost predicate FreshFrom(t: Actions, next: int) {
    forall i :: i in t ==> i < next
  }

  lemma InsertStep(done: set<int>, o: Actions, bridgeOf: map<int, int>, b: int, id: int)
    requires OnePerBridge(done, o, bridgeOf) && b in o && b !in done
    requires FreshFrom(Inserted(o, bridgeOf), id)
    ensures OnePerBridge(done + {b}, o, bridgeOf[id := b])
    ensures Inserted(o, bridgeOf[id := b]) == Inserted(o, bridgeOf)[id := TimeoutBefore(o[b])]
    ensures FreshFrom(Inserted(o, bridgeOf[id := b]), id + 1)
    ensures b in Inserted(o, bridgeOf) && Inserted(o, bridgeOf)[b] == o[b]
  {
    var after := bridgeOf[id := b];
    assert id !in Inserted(o, bridgeOf) && id !in o && id !in bridgeOf;
    forall x | x in done + {b} ensures exists i :: i in after && after[i] == x {
      if x == b { assert after[id] == b; }
      else {
        var i :| i in bridgeOf && bridgeOf[i] == x;
        assert after[i] == x;
      }
    }
  }

  /** The INSERT selects the same bridges as the UPDATE did. */
  lemma WidenedSameBridges(schema: Schema, t: Actions)
    ensures Bridges(schema, Widened(Bridges(schema, t), t)) == Bridges(schema, t)
  {
    var o := Widened(Bridges(schema, t), t);
    forall i | i in t ensures IsTimeout(o[i]) == IsTimeout(t[i]) && IsLocalBridge(o[i]) == IsLocalBridge(t[i]) {
      assert o[i].data == t[i].data;
    }
    forall c ensures HasTimeout(o, c) <==> HasTimeout(t, c) {
      if HasTimeout(t, c) {
        var j :| j in t && t[j].condition == c && IsTimeout(t[j]);
        assert j in o && o[j].condition == c;
      }
      if HasTimeout(o, c) {
        var j :| j in o && o[j].condition == c && IsTimeout(o[j]);
        assert j in t && t[j].condition == c;
      }
    }
  }
}
