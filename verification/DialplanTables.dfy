/** The table of one kind of dialplan item, as the statements of a move see it. */
module DialplanTables {
  import opened DialplanTree
  import opened Positions
  import MP = MoveProgram

  /** The tables with a unique constraint on parent and position. */
  predicate Enforced(kind: Kind) {
    kind == Ext || kind == Anti
  }

  function IdsOf(rows: Nodes, kind: Kind): (ids: set<int>)
    ensures forall i :: i in ids <==> Key(kind, i) in rows
  {
    set k | k in rows && k.kind == kind :: k.id
  }

  function TableOf(rows: Nodes, kind: Kind): (t: MP.Table)
    ensures t.Keys == IdsOf(rows, kind)
  {
    map i | i in IdsOf(rows, kind) :: MP.Row(rows[Key(kind, i)].parent.id, rows[Key(kind, i)].position)
  }

  /** The rows with the positions of their own table replaced. */
  function WithTable(rows: Nodes, kind: Kind, t: MP.Table): (rows': Nodes)
    requires t.Keys == IdsOf(rows, kind)
    ensures rows'.Keys == rows.Keys
    ensures forall k :: k in rows ==> rows'[k] == rows[k].(position := rows'[k].position)
  {
    map k | k in rows :: if k.kind == kind then rows[k].(position := t[k.id].pos) else rows[k]
  }

  lemma {:induction false} RunKeepsParents(program: seq<MP.Statement>, t: MP.Table)
    ensures MP.Run(program, t).Keys == t.Keys
    ensures forall i :: i in t ==> MP.Run(program, t)[i].parent == t[i].parent
    decreases |program|
  {
    if program != [] {
      RunKeepsParents(program[1..], MP.Execute(program[0], t));
    }
  }

  /** The statements of a move of `k`, built from the position `p` that its object has. */
  function MoveOf(rows: Nodes, k: Key, p: int, n: int): seq<MP.Statement>
    requires k in rows
  {
    MP.MoveStatements(k.id, MP.Row(rows[k].parent.id, p), n)
  }

  /** The rows after the five statements. */
  function MovedRows(rows: Nodes, k: Key, p: int, n: int): (rows': Nodes)
    requires k in rows
    ensures rows'.Keys == rows.Keys
    ensures forall j :: j in rows ==> rows'[j] == rows[j].(position := rows'[j].position)
  {
    RunKeepsParents(MoveOf(rows, k, p, n), TableOf(rows, k.kind));
    WithTable(rows, k.kind, MP.Run(MoveOf(rows, k, p, n), TableOf(rows, k.kind)))
  }

  /** No declared constraint is broken at any row step, in any order. */
  ghost predicate Permitted(rows: Nodes, k: Key, p: int, n: int)
    requires k in rows
  {
    Enforced(k.kind) ==> MP.LegalRun(MoveOf(rows, k, p, n), TableOf(rows, k.kind))
  }

  /** A declared constraint lets no two rows of one parent end at one position. */
  ghost predicate StaysDistinct(rows: Nodes, k: Key, p: int, n: int)
    requires k in rows
  {
    Enforced(k.kind) && MP.Unique(TableOf(rows, k.kind)) ==> MP.Unique(TableOf(MovedRows(rows, k, p, n), k.kind))
  }

  /** The loop over the siblings `among`: each compares with the place that `k` had. */
  function MovedNodes(nodes: Nodes, k: Key, n: int, among: set<Key>): Nodes
    requires k in nodes
  {
    map j | j in nodes ::
      if j == k then nodes[j].(position := n)
      else if j in among && j.kind == k.kind && nodes[j].parent == nodes[k].parent
      then nodes[j].(position := Beside(nodes[k].position, n, nodes[j].position)) else nodes[j]
  }

  // ----- a table in step -----

  /** Positions of one kind are positive and distinct below each parent, and parents are of one kind. */
  ghost predicate Proper(rows: Nodes, kind: Kind) {
    && MP.Unique(TableOf(rows, kind)) && MP.Positive(TableOf(rows, kind))
    && forall i, j :: i in rows && j in rows && i.kind == kind && j.kind == kind ==>
         rows[i].parent.kind == rows[j].parent.kind
  }

  /** The cyclic shift inside the parent; the last flip turns a row that was placed below zero. */
  function ShiftedRows(rows: Nodes, k: Key, n: int): Nodes
    requires k in rows
  {
    MovedNodes(rows, k, n, rows.Keys)[k := rows[k].(position := if n < 0 then -n else n)]
  }

  /** The place where a move below zero would end is already taken. */
  predicate MirrorTaken(rows: Nodes, k: Key, n: int)
    requires k in rows
  {
    exists j :: j in rows && j != k && j.kind == k.kind && rows[j].parent == rows[k].parent &&
                Moved(rows[k].position, n, rows[j].position) == -n
  }

  lemma SiblingRows(rows: Nodes, kind: Kind, i: Key, j: Key)
    requires Proper(rows, kind) && i in rows && j in rows && i.kind == kind && j.kind == kind
    ensures i.id in TableOf(rows, kind) && j.id in TableOf(rows, kind)
    ensures TableOf(rows, kind)[i.id] == MP.Row(rows[i].parent.id, rows[i].position)
    ensures rows[i].parent == rows[j].parent <==> TableOf(rows, kind)[i.id].parent == TableOf(rows, kind)[j.id].parent
    ensures rows[i].parent == rows[j].parent && i != j ==> rows[i].position != rows[j].position
  {
    assert i == Key(kind, i.id) && j == Key(kind, j.id);
  }

  lemma SameMirror(rows: Nodes, k: Key, n: int)
    requires Proper(rows, k.kind) && k in rows
    ensures k.id in TableOf(rows, k.kind)
    ensures MirrorTaken(rows, k, n) <==> MP.MirrorTaken(TableOf(rows, k.kind), k.id, n)
  {
    var t := TableOf(rows, k.kind);
    SiblingRows(rows, k.kind, k, k);
    if j :| j in rows && j != k && j.kind == k.kind && rows[j].parent == rows[k].parent &&
            Moved(rows[k].position, n, rows[j].position) == -n {
      SiblingRows(rows, k.kind, j, k);
      assert j == Key(k.kind, j.id) && k == Key(k.kind, k.id);
    }
    if i :| i in t && i != k.id && t[i].parent == t[k.id].parent && Moved(t[k.id].pos, n, t[i].pos) == -n {
      SiblingRows(rows, k.kind, Key(k.kind, i), k);
    }
  }

  lemma ShiftedRowIsCommitted(rows: Nodes, k: Key, n: int, j: Key)
    requires Proper(rows, k.kind) && k in rows && j in rows
    ensures k.id in TableOf(rows, k.kind)
    ensures var committed := MP.Committed(TableOf(rows, k.kind), k.id, n);
            ShiftedRows(rows, k, n)[j] ==
            if j.kind != k.kind then rows[j]
                else (assert j == Key(k.kind, j.id); rows[j].(position := committed[j.id].pos))
  {
    SiblingRows(rows, k.kind, k, k);
    if j.kind == k.kind {
      SiblingRows(rows, k.kind, j, k);
    }
  }

  lemma ShiftedTableAt(rows: Nodes, k: Key, n: int, i: int, after: MP.Table, committed: MP.Table)
    requires Proper(rows, k.kind) && k in rows && k.id in TableOf(rows, k.kind) && Key(k.kind, i) in rows
    requires after == TableOf(ShiftedRows(rows, k, n), k.kind)
    requires committed == MP.Committed(TableOf(rows, k.kind), k.id, n)
    ensures i in after && i in committed && after[i] == committed[i]
  {
    SiblingRows(rows, k.kind, Key(k.kind, i), k);
    ShiftedRowIsCommitted(rows, k, n, Key(k.kind, i));
  }

  lemma SameTable(a: MP.Table, b: MP.Table, ids: set<int>)
    requires a.Keys == ids == b.Keys && forall i :: i in ids ==> a[i] == b[i]
    ensures a == b
  {
    forall i | i in a ensures i in b && a[i] == b[i] {
      assert i in a.Keys && i in ids;
    }
  }

  lemma ShiftedTable(rows: Nodes, k: Key, n: int)
    requires Proper(rows, k.kind) && k in rows && k.id in TableOf(rows, k.kind)
    ensures TableOf(ShiftedRows(rows, k, n), k.kind) == MP.Committed(TableOf(rows, k.kind), k.id, n)
  {
    var ids := IdsOf(rows, k.kind);
    var after, committed := TableOf(ShiftedRows(rows, k, n), k.kind), MP.Committed(TableOf(rows, k.kind), k.id, n);
    ShiftedIds(rows, k, n);
    forall i | i in ids ensures after[i] == committed[i] {
      ShiftedTableAt(rows, k, n, i, after, committed);
    }
    SameTable(after, committed, ids);
  }

  lemma ShiftedIds(rows: Nodes, k: Key, n: int)
    requires k in rows
    ensures IdsOf(ShiftedRows(rows, k, n), k.kind) == IdsOf(rows, k.kind)
  {
  }

  lemma RowsFromTable(rows: Nodes, k: Key, p: int, n: int, t: MP.Table, j: Key)
    requires k in rows && j in rows && t == MP.Run(MoveOf(rows, k, p, n), TableOf(rows, k.kind))
    ensures j.kind == k.kind ==> j.id in t
    ensures MovedRows(rows, k, p, n)[j] == if j.kind == k.kind then rows[j].(position := t[j.id].pos) else rows[j]
  {
    RunKeepsParents(MoveOf(rows, k, p, n), TableOf(rows, k.kind));
    assert j == Key(j.kind, j.id);
  }

  lemma MoveOfTable(rows: Nodes, k: Key, n: int, t: MP.Table)
    requires Proper(rows, k.kind) && k in rows && t == TableOf(rows, k.kind)
    ensures k.id in t && MoveOf(rows, k, rows[k].position, n) == MP.MoveStatements(k.id, t[k.id], n)
    ensures MP.Unique(t) && MP.Positive(t)
  {
    SiblingRows(rows, k.kind, k, k);
  }

  lemma RowsAreShifted(rows: Nodes, k: Key, n: int, committed: MP.Table)
    requires Proper(rows, k.kind) && k in rows && k.id in TableOf(rows, k.kind)
    requires committed == MP.Committed(TableOf(rows, k.kind), k.id, n)
    requires committed == MP.Run(MoveOf(rows, k, rows[k].position, n), TableOf(rows, k.kind))
    ensures MovedRows(rows, k, rows[k].position, n) == ShiftedRows(rows, k, n)
  {
    var moved, shifted := MovedRows(rows, k, rows[k].position, n), ShiftedRows(rows, k, n);
    forall j | j in rows ensures moved[j] == shifted[j] {
      RowsFromTable(rows, k, rows[k].position, n, committed, j);
      ShiftedRowIsCommitted(rows, k, n, j);
    }
  }

  /** For every target the five statements commit the shift in a table in step, and they are legal in every order
      exactly when the target is not negative or its mirror is free; then and only then positions stay distinct. */
  lemma ProgramIsShift(rows: Nodes, k: Key, n: int)
    requires Proper(rows, k.kind) && k in rows
    ensures MovedRows(rows, k, rows[k].position, n) == ShiftedRows(rows, k, n)
    ensures MP.LegalRun(MoveOf(rows, k, rows[k].position, n), TableOf(rows, k.kind)) <==>
            n >= 0 || !MirrorTaken(rows, k, n)
    ensures MP.Unique(TableOf(ShiftedRows(rows, k, n), k.kind)) <==> n >= 0 || !MirrorTaken(rows, k, n)
  {
    var t := TableOf(rows, k.kind);
    MoveOfTable(rows, k, n, t);
    SameMirror(rows, k, n);
    ShiftedTable(rows, k, n);
    MP.MoveIsLegal(t, k.id, n);
    MP.MoveComputes(t, k.id, n);
    MP.CommittedUniqueIff(t, k.id, n);
    RowsAreShifted(rows, k, n, MP.Committed(t, k.id, n));
  }

  /** The same for the position that an object in step has. */
  lemma ShiftIsMove(rows: Nodes, k: Key, p: int, n: int)
    requires Proper(rows, k.kind) && k in rows && p == rows[k].position && n != 0
    ensures MovedRows(rows, k, p, n) == ShiftedRows(rows, k, n)
    ensures Permitted(rows, k, p, n) <==> n > 0 || !Enforced(k.kind) || !MirrorTaken(rows, k, n)
    ensures StaysDistinct(rows, k, p, n) <==> n > 0 || !Enforced(k.kind) || !MirrorTaken(rows, k, n)
  {
    ProgramIsShift(rows, k, n);
    assert MP.Unique(TableOf(rows, k.kind));
  }
}
