/** The transaction around the five UPDATE statements, the loop over the cached objects
    that replays it, the append at the end, and what every run of them keeps. */
module OrderedTables {
  import opened Positions
  import opened MoveProgram
  import opened AnyOrder

  /** A cached extension, condition, action or anti-action. */
  class Item {
    const id: int
    const parent: int
    var position: int

    function AsRow(): Row
      reads this
    {
      Row(parent, position)
    }

    constructor (id: int, parent: int, position: int)
      ensures this.id == id && this.parent == parent && this.position == position
    {
      this.id := id;
      this.parent := parent;
      this.position := position;
    }
  }

  /** `siblings` are the cached objects of one parent and carry its rows' positions. */
  ghost predicate Agrees(rows: Table, parent: int, siblings: seq<Item>)
    reads siblings
  {
    && (forall k :: 0 <= k < |siblings| ==>
          siblings[k].parent == parent && siblings[k].id in rows &&
              rows[siblings[k].id] == Row(parent, siblings[k].position))
    && (forall j, k :: 0 <= j < k < |siblings| ==> siblings[j] != siblings[k] && siblings[j].id != siblings[k].id)
    && (forall i :: i in rows && rows[i].parent == parent ==> exists k :: 0 <= k < |siblings| && siblings[k].id == i)
  }

  function RowsOf(rows: Table, parent: int): (ids: set<int>)
    ensures forall i :: i in ids <==> i in rows && rows[i].parent == parent
  {
    set i | i in rows && rows[i].parent == parent
  }

  predicate FreeOfClash(rows: Table, id: int)
    requires id in rows
  {
    forall j :: j in rows && j != id && rows[j].parent == rows[id].parent ==> rows[j].pos != rows[id].pos
  }

  /** The five statements chained. */
  lemma FiveStages(t: Table, s0: Statement, s1: Statement, s2: Statement, s3: Statement, s4: Statement)
    ensures var t1 := Execute(s0, t);
            var t2 := Execute(s1, t1);
            var t3 := Execute(s2, t2);
            var t4 := Execute(s3, t3);
            && Run([s0, s1, s2, s3, s4], t) == Execute(s4, t4)
            && (LegalRun([s0, s1, s2, s3, s4], t) <==>
                  Legal(s0, t) && Legal(s1, t1) && Legal(s2, t2) && Legal(s3, t3) && Legal(s4, t4))
  {
    var t1 := Execute(s0, t);
    FirstStage(s0, [s1, s2, s3, s4], [s0, s1, s2, s3, s4], t);
    FirstStage(s1, [s2, s3, s4], [s1, s2, s3, s4], t1);
    LastStages(Execute(s1, t1), s2, s3, s4);
  }

  lemma LastStages(t: Table, s2: Statement, s3: Statement, s4: Statement)
    ensures var t3 := Execute(s2, t);
            var t4 := Execute(s3, t3);
            && Run([s2, s3, s4], t) == Execute(s4, t4)
            && (LegalRun([s2, s3, s4], t) <==> Legal(s2, t) && Legal(s3, t3) && Legal(s4, t4))
  {
    var t3 := Execute(s2, t);
    var t4 := Execute(s3, t3);
    FirstStage(s2, [s3, s4], [s2, s3, s4], t);
    FirstStage(s3, [s4], [s3, s4], t3);
    FirstStage(s4, [], [s4], t4);
  }

  lemma FirstStage(s: Statement, rest: seq<Statement>, program: seq<Statement>, t: Table)
    requires program == [s] + rest
    ensures Run(program, t) == Run(rest, Execute(s, t))
    ensures LegalRun(program, t) <==> Legal(s, t) && LegalRun(rest, Execute(s, t))
    ensures rest == [] ==> Run(program, t) == Execute(s, t) && (LegalRun(program, t) <==> Legal(s, t))
  {
    assert program[1..] == rest;
  }

  lemma OneMoreRow(s: Statement, start: Table, done: set<int>, mid: Table, i: int)
    requires mid == Partly(s, start, done) && i in start && i !in done
    ensures mid[i := Target(s, mid[i])] == Partly(s, start, done + {i})
  {
  }

  /** A move built from `row` breaks a declared constraint at no row step, in no order. */
  ghost predicate Permitted(enforced: bool, id: int, row: Row, n: int, t: Table) {
    enforced ==> LegalRun(MoveStatements(id, row, n), t)
  }

  class OrderedTable {
    var rows: Table
    const enforced: bool   // the table declares UNIQUE (parent, position)

    constructor (enforced: bool)
      ensures rows == map[] && this.enforced == enforced
    {
      this.enforced := enforced;
      rows := map[];
    }

    /** One UPDATE: the matching rows are fixed at its start and rewritten one at a time, in any
        order; a declared constraint is checked after each row. */
    method UpdateRows(s: Statement) returns (ok: bool)
      modifies this`rows
      ensures ok ==> rows == Execute(s, old(rows)) && (enforced && Unique(old(rows)) ==> Unique(rows))
      ensures !ok ==> enforced && !Legal(s, old(rows))
    {
      ghost var start, done := rows, {};
      var todo := Matching(s, rows);
      assert rows == Partly(s, start, done);
      while todo != {}
        invariant todo !! done && todo + done == Matching(s, start)
        invariant rows == Partly(s, start, done)
        invariant enforced && Unique(start) ==> Unique(rows)
        decreases todo
      {
        var i := Pick(todo);
        OneMoreRow(s, start, done, rows, i);
        rows := rows[i := Target(s, rows[i])];
        todo, done := todo - {i}, done + {i};
        if enforced && !FreeOfClash(rows, i) {
          assert done <= Matching(s, start) && !Unique(rows);
          return false;
        }
      }
      return true;
    }

    /** The transaction of a move, built from the position that the caller's object has; `faults` says which database
        calls fail (0 begin, 1 to 5 the statements, 6 commit). */
    method MoveRows(id: int, position: int, parent: int, newPosition: int, faults: set<nat>) returns (ok: bool)
      modifies this`rows
      ensures ok ==> rows == Run(MoveStatements(id, Row(parent, position), newPosition), old(rows))
      ensures ok && enforced && Unique(old(rows)) ==> Unique(rows)
      ensures !ok ==> rows == old(rows)
      ensures faults == {} && Permitted(enforced, id, Row(parent, position), newPosition, old(rows)) ==> ok
    {
      var pos1 := newPosition;
      var pos2 := position;
      var pos3 := newPosition + 1;
      if position > newPosition {
        pos1 := newPosition - 1;
        pos3 := newPosition;
      }
      if 0 in faults { return false; }
      var start := rows;
      FiveStages(start, ShiftUp(parent, pos1), Flip, Place(id, pos3), ShiftDown(parent, pos2), Flip);
      ok := UpdateRows(ShiftUp(parent, pos1));
      if !ok || 1 in faults { rows := start; return false; }
      ok := UpdateRows(Flip);
      if !ok || 2 in faults { rows := start; return false; }
      ok := UpdateRows(Place(id, pos3));
      if !ok || 3 in faults { rows := start; return false; }
      ok := UpdateRows(ShiftDown(parent, pos2));
      if !ok || 4 in faults { rows := start; return false; }
      ok := UpdateRows(Flip);
      if !ok || 5 in faults { rows := start; return false; }
      if 6 in faults { rows := start; return false; }
      return true;
    }

    /** Moves `item` in the table and then in the cache; `siblings` is its parent's map in iteration order.  Whether
        they agreed before or not, each follows its own positions. */
    method Move(item: Item, siblings: seq<Item>, newPosition: int, faults: set<nat>) returns (ok: bool)
      requires item in siblings && forall j, k :: 0 <= j < k < |siblings| ==> siblings[j] != siblings[k]
      modifies this`rows, siblings
      ensures ok ==> rows == Run(MoveStatements(item.id, old(item.AsRow()), newPosition), old(rows))
      ensures ok && enforced && Unique(old(rows)) ==> Unique(rows)
      ensures ok ==> forall k :: 0 <= k < |siblings| ==>
                siblings[k].position ==
                if siblings[k] == item then newPosition
                else Beside(old(item.position), newPosition, old(siblings[k].position))
      ensures !ok ==> rows == old(rows) && forall k :: 0 <= k < |siblings| ==> unchanged(siblings[k])
      ensures faults == {} && Permitted(enforced, item.id, old(item.AsRow()), newPosition, old(rows)) ==> ok
      ensures ok && old(Unique(rows) && Positive(rows) && Agrees(rows, item.parent, siblings)) ==>
                && rows == Committed(old(rows), item.id, newPosition)
                && (Agrees(rows, item.parent, siblings) <==> newPosition >= 0)
    {
      ghost var start, p := rows, item.position;
      ghost var before := seq(|siblings|, k requires 0 <= k < |siblings| reads siblings => siblings[k].position);
      ghost var inStep := Unique(rows) && Positive(rows) && Agrees(rows, item.parent, siblings);
      ok := MoveRows(item.id, item.position, item.parent, newPosition, faults);
      if !ok { return; }
      Replay(item, siblings, newPosition);
      if inStep {
        assert start[item.id] == Row(item.parent, p);
        MoveComputes(start, item.id, newPosition);
        AgreementAfterMove(start, rows, item, siblings, newPosition, before);
      }
    }

    /** INSERT with position = COALESCE(highest position of the parent + 1, 1); `id` comes from the serial. */
    method Append(id: int, parent: int) returns (position: int)
      requires id !in rows
      modifies this`rows
      ensures rows == old(rows)[id := Row(parent, position)]
      ensures IsNext(old(rows), parent, position)
    {
      var todo := RowsOf(rows, parent);
      ghost var all := todo;
      var found, highest := false, 0;
      while todo != {}
        invariant rows == old(rows) && todo <= all == RowsOf(rows, parent)
        invariant !found <==> todo == all
        invariant found ==> exists i :: i in all && rows[i].pos == highest
        invariant found ==> forall i :: i in all - todo ==> rows[i].pos <= highest
        decreases todo
      {
        var i := Pick(todo);
        if !found || rows[i].pos > highest {
          found, highest := true, rows[i].pos;
        }
        todo := todo - {i};
      }
      position := if found then highest + 1 else 1;
      rows := rows[id := Row(parent, position)];
    }
  }

  /** `position` is one past the highest of the parent, or 1 for an empty parent. */
  ghost predicate IsNext(t: Table, parent: int, position: int) {
    && (forall i :: i in t && t[i].parent == parent ==> t[i].pos < position)
    && ((forall i :: i in t ==> t[i].parent != parent) ==> position == 1)
    && ((exists i :: i in t && t[i].parent == parent) ==> exists i ::
        i in t && t[i].parent == parent && t[i].pos == position - 1)
  }

  /** The global variables: the table is moved by the same transaction, then the cache is read again from it. */
  class GlobalVariables {
    var positions: map<int, int>   // id to cached position

    constructor ()
      ensures positions == map[]
    {
      positions := map[];
    }

    method Reload(table: OrderedTable, instance: int)
      modifies this`positions
      ensures positions.Keys == old(positions.Keys) + RowsOf(table.rows, instance)
      ensures forall i :: i in positions ==>
                positions[i] == if i in table.rows && table.rows[i].parent == instance then table.rows[i].pos
                    else old(positions)[i]
    {
      var todo := RowsOf(table.rows, instance);
      ghost var all := todo;
      while todo != {}
        invariant todo <= all == RowsOf(table.rows, instance)
        invariant positions.Keys == old(positions.Keys) + (all - todo)
        invariant forall i :: i in positions ==>
                    positions[i] == if i in all - todo then table.rows[i].pos else old(positions)[i]
        decreases todo
      {
        var i := Pick(todo);
        positions := positions[i := table.rows[i].pos];
        todo := todo - {i};
      }
    }

    /** Unlike the dialplan moves, cache and table agree after every commit, whatever they were before. */
    method Move(table: OrderedTable, id: int, newPosition: int, instance: int, faults: set<nat>) returns (ok: bool)
      requires id in positions
      modifies this`positions, table`rows
      ensures var program := MoveStatements(id, Row(instance, old(positions)[id]), newPosition);
              ok ==> table.rows == Run(program, old(table.rows))
      ensures ok ==> forall i :: i in table.rows && table.rows[i].parent == instance ==>
                i in positions && positions[i] == table.rows[i].pos
      ensures !ok ==> table.rows == old(table.rows) && positions == old(positions)
    {
      ok := table.MoveRows(id, positions[id], instance, newPosition, faults);
      if !ok { return; }
      Reload(table, instance);
    }
  }

  /** The in-memory loop: it compares against `item.position` while `item` itself is among the objects it rewrites. */
  method Replay(item: Item, siblings: seq<Item>, newPosition: int)
    requires item in siblings
    requires forall j, k :: 0 <= j < k < |siblings| ==> siblings[j] != siblings[k]
    modifies siblings
    ensures forall k :: 0 <= k < |siblings| ==>
              siblings[k].position ==
              if siblings[k] == item then newPosition
                  else Beside(old(item.position), newPosition, old(siblings[k].position))
  {
    if item.position > newPosition {
      for k := 0 to |siblings|
        invariant item.position == old(item.position)
        invariant forall j :: 0 <= j < k && siblings[j] != item ==>
                    siblings[j].position == Beside(item.position, newPosition, old(siblings[j].position))
        invariant forall j :: k <= j < |siblings| ==> siblings[j].position == old(siblings[j].position)
      {
        var v := siblings[k];
        if v.position >= newPosition && v.position < item.position {
          v.position := v.position + 1;
        }
      }
    } else {
      for k := 0 to |siblings|
        invariant item.position == old(item.position)
        invariant forall j :: 0 <= j < k && siblings[j] != item ==>
                    siblings[j].position == Beside(item.position, newPosition, old(siblings[j].position))
        invariant forall j :: k <= j < |siblings| ==> siblings[j].position == old(siblings[j].position)
      {
        var v := siblings[k];
        if v.position > item.position && v.position <= newPosition {
          v.position := v.position - 1;
        }
      }
    }
    item.position := newPosition;
  }

  /** `before` are the positions the objects had when they agreed with `start`. */
  lemma AgreementAfterMove(start: Table, rows: Table, item: Item, siblings: seq<Item>, n: int, before: seq<int>)
    requires item in siblings && item.id in start && |before| == |siblings|
    requires forall k :: 0 <= k < |siblings| ==>
               siblings[k].parent == item.parent && siblings[k].id in start &&
                   start[siblings[k].id] == Row(item.parent, before[k])
    requires forall j, k :: 0 <= j < k < |siblings| ==> siblings[j] != siblings[k] && siblings[j].id != siblings[k].id
    requires forall i :: i in start && start[i].parent == item.parent ==> exists k ::
               0 <= k < |siblings| && siblings[k].id == i
    requires rows == Committed(start, item.id, n)
    requires Unique(start)
    requires forall k :: 0 <= k < |siblings| ==>
               siblings[k].position == if siblings[k] == item then n else Beside(start[item.id].pos, n, before[k])
    ensures Agrees(rows, item.parent, siblings) <==> n >= 0
  {
    CommittedAsIntended(start, item.id, n);
    var me :| 0 <= me < |siblings| && siblings[me] == item;
    assert siblings[me].position == n;
    if n >= 0 {
      forall k | 0 <= k < |siblings|
        ensures siblings[k].id in rows && rows[siblings[k].id] == Row(item.parent, siblings[k].position)
      {
        assert start[siblings[k].id] == Row(item.parent, before[k]);
      }
      forall i | i in rows && rows[i].parent == item.parent ensures exists k ::
          0 <= k < |siblings| && siblings[k].id == i {
        assert start[i].parent == item.parent;
      }
    } else {
      assert rows[item.id].pos == -n;
    }
  }

  // ----- every run -----

  /** Rows and cached objects of one ordered table. */
  datatype Store = Store(rows: Table, cached: Table)

  /** Which table: is UNIQUE (parent, position) declared, and does a move read the cache again instead of replaying
      it? */
  datatype Kind = Kind(enforced: bool, reloads: bool)

  ghost predicate InStep(s: Store) {
    s.cached == s.rows && Unique(s.rows) && Positive(s.rows)
  }

  datatype Op =
    | Add(id: int, parent: int, fails: bool)
    | Delete(ids: set<int>)                     // a DELETE, or what a cascade takes with it
    | Reorder(id: int, n: int, commits: bool)

  /** `newPosition == 0` and unknown ids are refused before the database; `commits` is what the database answers. */
  predicate Effective(s: Store, op: Op) {
    op.Reorder? && op.commits && op.n != 0 && op.id in s.rows && op.id in s.cached
  }

  /** The objects of the parent after the loop. */
  function Replayed(cached: Table, id: int, n: int): Table
    requires id in cached
  {
    map i | i in cached ::
      if i == id then cached[i].(pos := n)
      else if cached[i].parent == cached[id].parent then cached[i].(pos := Beside(cached[id].pos, n, cached[i].pos))
      else cached[i]
  }

  /** The objects of the parent read from the table again. */
  function Reloaded(cached: Table, rows: Table, parent: int): Table {
    map i | i in cached :: if i in rows && rows[i].parent == parent then rows[i] else cached[i]
  }

  /** A committed move: the statements are built from the cached object. */
  function Reordered(kind: Kind, s: Store, id: int, n: int): Store
    requires id in s.cached
  {
    var rows := Run(MoveStatements(id, s.cached[id], n), s.rows);
    Store(rows, if kind.reloads then Reloaded(s.cached, rows, s.cached[id].parent) else Replayed(s.cached, id, n))
  }

  /** One committed or rolled back request. A declared constraint lets no two rows of one parent end at one position. */
  ghost predicate Step(kind: Kind, s: Store, op: Op, t: Store) {
    match op
    case Add(id, parent, fails) =>
      if fails || id in s.rows then t == s
      else exists position :: IsNext(s.rows, parent, position) && t == Added(s, id, parent, position)
    case Delete(ids) => t == Store(s.rows - ids, s.cached - ids)
    case Reorder(id, n, commits) =>
      if !Effective(s, op) then t == s
      else t == Reordered(kind, s, id, n) && (kind.enforced ==> Unique(t.rows))
  }

  function Added(s: Store, id: int, parent: int, position: int): Store {
    Store(s.rows[id := Row(parent, position)], s.cached[id := Row(parent, position)])
  }

  ghost predicate IsHistory(kind: Kind, stores: seq<Store>, ops: seq<Op>) {
    && |stores| == |ops| + 1
    && forall k :: 0 <= k < |ops| ==> Step(kind, stores[k], ops[k], stores[k + 1])
  }

  /** The moves that leave table and cache in step: to a target above zero, or, when the cache is read again, to a
      target below zero whose mirror is free. */
  ghost predicate Harmless(kind: Kind, s: Store, op: Op) {
    Effective(s, op) ==> op.n > 0 || (kind.reloads && !MirrorTaken(s.rows, op.id, op.n))
  }

  lemma ReorderInStepIff(kind: Kind, s: Store, id: int, n: int)
    requires InStep(s) && id in s.rows && n != 0
    ensures InStep(Reordered(kind, s, id, n)) <==> n > 0 || (kind.reloads && !MirrorTaken(s.rows, id, n))
  {
    var t := Reordered(kind, s, id, n);
    MoveComputes(s.rows, id, n);
    CommittedUniqueIff(s.rows, id, n);
    CommittedIsPositive(s.rows, id, n);
    if kind.reloads {
      assert t.cached == t.rows;
    } else if n > 0 {
      assert t.cached == t.rows;
    } else {
      assert t.cached[id].pos == n && t.rows[id].pos == -n;
    }
  }

  lemma CommittedIsPositive(t: Table, id: int, n: int)
    requires Unique(t) && Positive(t) && id in t && n != 0
    ensures Positive(Committed(t, id, n))
  {
  }

  lemma AddInStep(s: Store, id: int, parent: int, position: int)
    requires InStep(s) && id !in s.rows && IsNext(s.rows, parent, position)
    ensures InStep(Added(s, id, parent, position))
  {
    if exists i :: i in s.rows && s.rows[i].parent == parent {
      var i :| i in s.rows && s.rows[i].parent == parent && s.rows[i].pos == position - 1;
    }
  }

  /** From a store in step one request leads to one in step exactly when it is harmless. */
  lemma StepInStepIff(kind: Kind, s: Store, op: Op, t: Store)
    requires InStep(s) && Step(kind, s, op, t)
    ensures InStep(t) <==> Harmless(kind, s, op)
  {
    match op
    case Add(id, parent, fails) =>
      if !fails && id !in s.rows {
        var position :| IsNext(s.rows, parent, position) && t == Added(s, id, parent, position);
        AddInStep(s, id, parent, position);
      }
    case Delete(ids) =>
    case Reorder(id, n, commits) =>
      if Effective(s, op) {
        ReorderInStepIff(kind, s, id, n);
      }
  }

  lemma {:induction false} RunInStep(kind: Kind, stores: seq<Store>, ops: seq<Op>, k: nat)
    requires IsHistory(kind, stores, ops) && k <= |ops| && InStep(stores[0])
    requires forall j :: 0 <= j < k ==> Harmless(kind, stores[j], ops[j])
    ensures InStep(stores[k])
  {
    if k > 0 {
      RunInStep(kind, stores, ops, k - 1);
      StepInStepIff(kind, stores[k - 1], ops[k - 1], stores[k]);
    }
  }

  /** In a run of appends, deletions and moves, with any targets and failures, positions are positive, distinct and the
      same in table and cache in every state exactly when every move that commits is harmless. */
  lemma EveryRunInStepIff(kind: Kind, stores: seq<Store>, ops: seq<Op>)
    requires IsHistory(kind, stores, ops) && InStep(stores[0])
    ensures (forall k :: 0 <= k <= |ops| ==> InStep(stores[k])) <==>
              (forall k :: 0 <= k < |ops| ==> Harmless(kind, stores[k], ops[k]))
  {
    if forall k :: 0 <= k < |ops| ==> Harmless(kind, stores[k], ops[k]) {
      forall k | 0 <= k <= |ops| ensures InStep(stores[k]) {
        RunInStep(kind, stores, ops, k);
      }
    }
    if forall k :: 0 <= k <= |ops| ==> InStep(stores[k]) {
      forall k | 0 <= k < |ops| ensures Harmless(kind, stores[k], ops[k]) {
        assert InStep(stores[k]) && InStep(stores[k + 1]);
        StepInStepIff(kind, stores[k], ops[k], stores[k + 1]);
      }
    }
  }

  /** Whatever the targets, a declared constraint keeps the positions of each parent distinct. */
  lemma {:induction false} EveryRunUnique(kind: Kind, stores: seq<Store>, ops: seq<Op>, k: nat)
    requires IsHistory(kind, stores, ops) && k <= |ops| && kind.enforced && Unique(stores[0].rows)
    ensures Unique(stores[k].rows)
  {
    if k > 0 {
      EveryRunUnique(kind, stores, ops, k - 1);
      var s, op := stores[k - 1], ops[k - 1];
      assert Step(kind, s, op, stores[k]);
      if op.Add? && !op.fails && op.id !in s.rows {
        var position :| IsNext(s.rows, op.parent, position) && stores[k] == Added(s, op.id, op.parent, position);
      }
    }
  }

  // ----- a move below zero, two moves later -----

  datatype Triple = Triple(a: int, b: int, c: int)

  /** Three rows of one parent. */
  function Three(x: Triple): Table {
    map[1 := Row(1, x.a), 2 := Row(1, x.b), 3 := Row(1, x.c)]
  }

  predicate Becomes(s: Statement, id: int, pos: int, pos': int) {
    RowAfter(s, id, Row(1, pos)) == Row(1, pos')
  }

  /** Positions before and after, for two rows that never meet. */
  predicate NeverMeet(a: int, a': int, b: int, b': int) {
    a != b && a' != b && a != b' && a' != b'
  }

  predicate StageOf(s: Statement, x: Triple, y: Triple) {
    && Becomes(s, 1, x.a, y.a) && Becomes(s, 2, x.b, y.b) && Becomes(s, 3, x.c, y.c)
    && NeverMeet(x.a, y.a, x.b, y.b) && NeverMeet(x.a, y.a, x.c, y.c) && NeverMeet(x.b, y.b, x.c, y.c)
  }

  lemma StageApart(s: Statement, i: int, a: int, a': int, j: int, b: int, b': int)
    requires Becomes(s, i, a, a') && Becomes(s, j, b, b') && NeverMeet(a, a', b, b')
    ensures Apart(s, i, Row(1, a), j, Row(1, b)) && Apart(s, j, Row(1, b), i, Row(1, a))
  {
  }

  lemma ThreeApart(s: Statement, x: Triple, y: Triple)
    requires StageOf(s, x, y)
    ensures PairwiseLegal(s, Three(x))
  {
    StageApart(s, 1, x.a, y.a, 2, x.b, y.b);
    StageApart(s, 1, x.a, y.a, 3, x.c, y.c);
    StageApart(s, 2, x.b, y.b, 3, x.c, y.c);
    forall i, j | i in Three(x) && j in Three(x) && i != j ensures Apart(s, i, Three(x)[i], j, Three(x)[j]) {
      assert 1 <= i <= 3 && 1 <= j <= 3;
    }
  }

  lemma ThreeBecome(s: Statement, x: Triple, y: Triple)
    requires StageOf(s, x, y)
    ensures Execute(s, Three(x)) == Three(y)
  {
    forall i | i in Three(x) ensures i in Three(y) && Execute(s, Three(x))[i] == Three(y)[i] {
      assert i == 1 || i == 2 || i == 3;
    }
  }

  lemma StageIsLegal(s: Statement, x: Triple, y: Triple)
    requires StageOf(s, x, y)
    ensures Legal(s, Three(x)) && Execute(s, Three(x)) == Three(y)
  {
    ThreeApart(s, x, y);
    LegalIffPairwise(s, Three(x));
    ThreeBecome(s, x, y);
  }

  /** A move of one of three rows, followed through the five statements. */
  lemma ThreeRun(p: seq<Statement>, x: seq<Triple>)
    requires |p| == 5 && |x| == 6 && forall m :: 0 <= m < 5 ==> StageOf(p[m], x[m], x[m + 1])
    ensures LegalRun(p, Three(x[0])) && Run(p, Three(x[0])) == Three(x[5])
  {
    forall m | 0 <= m < 5 ensures Legal(p[m], Three(x[m])) && Execute(p[m], Three(x[m])) == Three(x[m + 1]) {
      StageIsLegal(p[m], x[m], x[m + 1]);
    }
    FiveStages(Three(x[0]), p[0], p[1], p[2], p[3], p[4]);
    assert p == [p[0], p[1], p[2], p[3], p[4]];
  }

  lemma ThreeReplayed(id: int, n: int, x: Triple, y: Triple)
    requires 1 <= id <= 3
    requires var p := Three(x)[id].pos;
             && y.a == (if id == 1 then n else Beside(p, n, x.a))
             && y.b == (if id == 2 then n else Beside(p, n, x.b))
             && y.c == (if id == 3 then n else Beside(p, n, x.c))
    ensures Replayed(Three(x), id, n) == Three(y)
  {
  }

  lemma FirstMove()
    ensures var p := MoveStatements(1, Row(1, 1), -5);
            LegalRun(p, Three(Triple(1, 2, 3))) && Run(p, Three(Triple(1, 2, 3))) == Three(Triple(5, 2, 3))
  {
    ThreeRun(MoveStatements(1, Row(1, 1), -5),
             [Triple(1, 2, 3), Triple(-2, -3, -4), Triple(2, 3, 4), Triple(-5, 3, 4), Triple(-5, -2, -3),
                 Triple(5, 2, 3)]);
  }

  lemma SecondMove()
    ensures var p := MoveStatements(2, Row(1, 2), 1);
            LegalRun(p, Three(Triple(5, 2, 3))) && Run(p, Three(Triple(5, 2, 3))) == Three(Triple(5, 1, 3))
  {
    ThreeRun(MoveStatements(2, Row(1, 2), 1),
             [Triple(5, 2, 3), Triple(-6, -3, -4), Triple(6, 3, 4), Triple(6, 1, 4), Triple(-5, 1, -3),
                 Triple(5, 1, 3)]);
  }

  lemma ThirdMove()
    ensures var p := MoveStatements(1, Row(1, -5), 3);
            LegalRun(p, Three(Triple(5, 1, 3))) && Run(p, Three(Triple(5, 1, 3))) == Three(Triple(3, 0, 2))
  {
    ThreeRun(MoveStatements(1, Row(1, -5), 3),
             [Triple(5, 1, 3), Triple(-6, 1, 3), Triple(6, 1, 3), Triple(4, 1, 3), Triple(-3, 0, -2), Triple(3, 0, 2)]);
  }

  lemma ThreeFacts(x: Triple)
    ensures x.a != x.b && x.a != x.c && x.b != x.c ==> Unique(Three(x))
    ensures Positive(Three(x)) <==> x.a > 0 && x.b > 0 && x.c > 0
  {
    assert Three(x)[1].pos == x.a && Three(x)[2].pos == x.b && Three(x)[3].pos == x.c;
  }

  /** A legal move of three rows, built from the cached object, as a step. */
  lemma ThreeStep(kind: Kind, id: int, n: int, x: Triple, cached: Triple, y: Triple, cached': Triple)
    requires !kind.reloads && 1 <= id <= 3 && n != 0 && y.a != y.b && y.a != y.c && y.b != y.c
    requires Run(MoveStatements(id, Three(cached)[id], n), Three(x)) == Three(y)
    requires Replayed(Three(cached), id, n) == Three(cached')
    ensures Step(kind, Store(Three(x), Three(cached)), Reorder(id, n, true), Store(Three(y), Three(cached')))
  {
    ThreeFacts(y);
  }

  /** Three moves to targets other than 0, each legal at every row: the third one is built from the position that the
      first one left in the cache, and commits a row at position 0. */
  lemma StaleCacheReachesZero(kind: Kind, s: Store, s1: Store, s2: Store, s3: Store)
    requires !kind.reloads && s == Store(Three(Triple(1, 2, 3)), Three(Triple(1, 2, 3)))
    requires s1 == Store(Three(Triple(5, 2, 3)), Three(Triple(-5, 2, 3)))
    requires s2 == Store(Three(Triple(5, 1, 3)), Three(Triple(-5, 1, 3)))
    requires s3 == Store(Three(Triple(3, 0, 2)), Three(Triple(3, 0, 2)))
    ensures InStep(s) && Step(kind, s, Reorder(1, -5, true), s1) && LegalRun(MoveStatements(1, s.cached[1], -5), s.rows)
    ensures Step(kind, s1, Reorder(2, 1, true), s2) && LegalRun(MoveStatements(2, s1.cached[2], 1), s1.rows)
    ensures Step(kind, s2, Reorder(1, 3, true), s3) && LegalRun(MoveStatements(1, s2.cached[1], 3), s2.rows)
    ensures !Positive(s3.rows)
  {
    FirstMove();
    ThreeReplayed(1, -5, Triple(1, 2, 3), Triple(-5, 2, 3));
    ThreeStep(kind, 1, -5, Triple(1, 2, 3), Triple(1, 2, 3), Triple(5, 2, 3), Triple(-5, 2, 3));
    SecondMove();
    ThreeReplayed(2, 1, Triple(-5, 2, 3), Triple(-5, 1, 3));
    ThreeStep(kind, 2, 1, Triple(5, 2, 3), Triple(-5, 2, 3), Triple(5, 1, 3), Triple(-5, 1, 3));
    ThirdMove();
    ThreeReplayed(1, 3, Triple(-5, 1, 3), Triple(3, 0, 2));
    ThreeStep(kind, 1, 3, Triple(5, 1, 3), Triple(-5, 1, 3), Triple(3, 0, 2), Triple(3, 0, 2));
    ThreeFacts(Triple(1, 2, 3));
    ThreeFacts(Triple(3, 0, 2));
  }

  /** Without a constraint a move below zero commits two rows at one position. */
  lemma NoConstraintCommitsTwins(kind: Kind)
    ensures var t := map[1 := Row(1, 1), 2 := Row(1, 2)];
            InStep(Store(t, t)) && Reordered(kind, Store(t, t), 1, -2).rows == map[1 := Row(1, 2), 2 := Row(1, 2)]
  {
    var t := map[1 := Row(1, 1), 2 := Row(1, 2)];
    MoveComputes(t, 1, -2);
    assert Committed(t, 1, -2) == map[1 := Row(1, 2), 2 := Row(1, 2)];
  }
}
