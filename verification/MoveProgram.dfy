/** The five UPDATE statements that move one row of an ordered table, run row by row
    under a unique constraint that is checked after every row, and the separate loop
    that replays the move on the cached objects. */
module MoveProgram {
  import opened Positions

  datatype Row = Row(parent: int, pos: int)
  type Table = map<int, Row>

  /** UNIQUE (parent, position). */
  ghost predicate Unique(t: Table) {
    forall i, j :: i in t && j in t && i != j && t[i].parent == t[j].parent ==> t[i].pos != t[j].pos
  }

  ghost predicate Positive(t: Table) {
    forall i :: i in t ==> t[i].pos > 0
  }

  datatype Statement =
    | ShiftUp(parent: int, above: int)   // SET position = (position + 1) * -1 WHERE parent AND position > above
    | Flip                               // SET position = position * -1 WHERE position < 0, in every parent
    | Place(id: int, pos: int)           // SET position = pos WHERE id
    | ShiftDown(parent: int, above: int) // SET position = (position - 1) * -1 WHERE parent AND position > above

  predicate Matches(s: Statement, id: int, r: Row) {
    match s
    case ShiftUp(parent, above) => r.parent == parent && r.pos > above
    case Flip => r.pos < 0
    case Place(i, _) => id == i
    case ShiftDown(parent, above) => r.parent == parent && r.pos > above
  }

  function Target(s: Statement, r: Row): Row {
    match s
    case ShiftUp(_, _) => r.(pos := -(r.pos + 1))
    case Flip => r.(pos := -r.pos)
    case Place(_, pos) => r.(pos := pos)
    case ShiftDown(_, _) => r.(pos := -(r.pos - 1))
  }

  function Matching(s: Statement, t: Table): set<int> {
    set i | i in t && Matches(s, i, t[i])
  }

  /** The table in the middle of statement `s`, when exactly the rows `done` were rewritten. */
  function Partly(s: Statement, t: Table, done: set<int>): Table {
    map i | i in t :: if i in done then Target(s, t[i]) else t[i]
  }

  function Execute(s: Statement, t: Table): Table {
    Partly(s, t, Matching(s, t))
  }

  /** No order of visiting the matching rows ever shows two rows of one parent at one position. */
  ghost predicate Legal(s: Statement, t: Table) {
    forall done: set<int> :: done <= Matching(s, t) ==> Unique(Partly(s, t, done))
  }

  function Run(program: seq<Statement>, t: Table): Table {
    if program == [] then t else Run(program[1..], Execute(program[0], t))
  }

  ghost predicate LegalRun(program: seq<Statement>, t: Table) {
    program == [] || (Legal(program[0], t) && LegalRun(program[1..], Execute(program[0], t)))
  }

  function MoveStatements(id: int, row: Row, n: int): seq<Statement> {
    var pos1 := if row.pos > n then n - 1 else n;
    var pos3 := if row.pos > n then n else n + 1;
    [ShiftUp(row.parent, pos1), Flip, Place(id, pos3), ShiftDown(row.parent, row.pos), Flip]
  }

  /** What the move is meant to do: a cyclic shift inside one parent, nothing elsewhere. */
  function MovedTable(t: Table, id: int, n: int): Table
    requires id in t
  {
    map i | i in t ::
      if t[i].parent == t[id].parent then t[i].(pos := Moved(t[id].pos, n, t[i].pos)) else t[i]
  }

  // ----- legality, row by row and then pair by pair -----

  function RowAfter(s: Statement, id: int, r: Row): Row {
    if Matches(s, id, r) then Target(s, r) else r
  }

  /** Two rows never meet: neither before, nor after, nor when only one of them was rewritten. */
  predicate Apart(s: Statement, i: int, a: Row, j: int, b: Row) {
    a.parent == b.parent ==>
      && a.pos != b.pos
      && RowAfter(s, i, a).pos != b.pos
      && a.pos != RowAfter(s, j, b).pos
      && RowAfter(s, i, a).pos != RowAfter(s, j, b).pos
  }

  ghost predicate PairwiseLegal(s: Statement, t: Table) {
    forall i, j :: i in t && j in t && i != j ==> Apart(s, i, t[i], j, t[j])
  }

  lemma PairIsApart(s: Statement, t: Table, i: int, j: int)
    requires Legal(s, t) && i in t && j in t && i != j
    ensures Apart(s, i, t[i], j, t[j])
  {
    var all := Matching(s, t);
    var none, ti, tj, tij := Partly(s, t, {}), Partly(s, t, all * {i}), Partly(s, t, all * {j}),
        Partly(s, t, all * {i, j});
    assert Unique(none) && Unique(ti) && Unique(tj) && Unique(tij);
    assert none[i] == t[i] == tj[i] && none[j] == t[j] == ti[j];
    assert ti[i] == tij[i] == RowAfter(s, i, t[i]) && tj[j] == tij[j] == RowAfter(s, j, t[j]);
  }

  lemma MiddleIsUnique(s: Statement, t: Table, done: set<int>)
    requires PairwiseLegal(s, t) && done <= Matching(s, t)
    ensures Unique(Partly(s, t, done))
  {
    var mid := Partly(s, t, done);
    forall i, j | i in mid && j in mid && i != j && mid[i].parent == mid[j].parent
      ensures mid[i].pos != mid[j].pos
    {
      assert Apart(s, i, t[i], j, t[j]);
    }
  }

  /** Legality over all visiting orders is a matter of pairs of rows. */
  lemma LegalIffPairwise(s: Statement, t: Table)
    ensures Legal(s, t) <==> PairwiseLegal(s, t)
  {
    if Legal(s, t) {
      forall i, j | i in t && j in t && i != j ensures Apart(s, i, t[i], j, t[j]) {
        PairIsApart(s, t, i, j);
      }
    }
    if PairwiseLegal(s, t) {
      forall done: set<int> | done <= Matching(s, t) ensures Unique(Partly(s, t, done)) {
        MiddleIsUnique(s, t, done);
      }
    }
  }

  // ----- the move, followed through one row -----

  /** The row after the first k of the five statements. */
  function RowAt(program: seq<Statement>, k: nat, id: int, r: Row): Row
    requires k <= |program|
  {
    if k == 0 then r else RowAfter(program[k - 1], id, RowAt(program, k - 1, id, r))
  }

  function TableAt(program: seq<Statement>, k: nat, t: Table): Table
    requires k <= |program|
  {
    map i | i in t :: RowAt(program, k, i, t[i])
  }

  lemma {:induction false} RunIsRowwise(program: seq<Statement>, k: nat, t: Table)
    requires k <= |program|
    ensures Run(program[k..], TableAt(program, k, t)) == TableAt(program, |program|, t)
    ensures LegalRun(program[k..], TableAt(program, k, t)) <==>
              forall m :: k <= m < |program| ==> Legal(program[m], TableAt(program, m, t))
    decreases |program| - k
  {
    if k < |program| {
      assert program[k..][0] == program[k] && program[k..][1..] == program[k + 1..];
      assert Execute(program[k], TableAt(program, k, t)) == TableAt(program, k + 1, t);
      RunIsRowwise(program, k + 1, t);
    }
  }

  lemma WholeRun(program: seq<Statement>, t: Table)
    ensures Run(program, t) == TableAt(program, |program|, t)
    ensures LegalRun(program, t) <==> forall m :: 0 <= m < |program| ==> Legal(program[m], TableAt(program, m, t))
  {
    RunIsRowwise(program, 0, t);
    assert TableAt(program, 0, t) == t && program[0..] == program;
  }

  /** Closed form of every stage, for a row other than the moved one. */
  lemma OtherRowStages(id: int, moved: Row, n: int, i: int, r: Row)
    requires moved.pos > 0 && r.pos > 0 && i != id
    requires r.parent == moved.parent ==> r.pos != moved.pos
    ensures var p := MoveStatements(id, moved, n);
            var from := if moved.pos > n then n else n + 1;
            var up := if r.parent == moved.parent && r.pos >= from then r.pos + 1 else r.pos;
            var down := r.parent == moved.parent && up > moved.pos;
            && RowAt(p, 1, i, r) == r.(pos := if up == r.pos then r.pos else -up)
            && RowAt(p, 2, i, r) == r.(pos := up)
            && RowAt(p, 3, i, r) == r.(pos := up)
            && RowAt(p, 4, i, r) == r.(pos := if down then -(up - 1) else up)
            && RowAt(p, 5, i, r) == r.(pos := if down then up - 1 else up)
            && (if down then up - 1 else up) == (if r.parent == moved.parent then Moved(moved.pos, n, r.pos) else r.pos)
  {
    var p := MoveStatements(id, moved, n);
    var r1 := RowAt(p, 1, i, r);
    var r2 := RowAt(p, 2, i, r);
    var r3 := RowAt(p, 3, i, r);
    var r4 := RowAt(p, 4, i, r);
  }

  /** Closed form of every stage for the moved row. */
  lemma MovedRowStages(id: int, moved: Row, n: int)
    requires moved.pos > 0
    ensures var p := MoveStatements(id, moved, n);
            && (moved.pos > n ==>
                  && RowAt(p, 1, id, moved).pos == -(moved.pos + 1)
                  && RowAt(p, 2, id, moved).pos == moved.pos + 1
                  && RowAt(p, 3, id, moved).pos == n
                  && RowAt(p, 4, id, moved).pos == n)
            && (moved.pos <= n ==>
                  && RowAt(p, 1, id, moved).pos == moved.pos
                  && RowAt(p, 2, id, moved).pos == moved.pos
                  && RowAt(p, 3, id, moved).pos == n + 1
                  && RowAt(p, 4, id, moved).pos == -n)
            && RowAt(p, 5, id, moved).pos == (if n < 0 then -n else n)
            && forall k :: 0 <= k <= 5 ==> RowAt(p, k, id, moved).parent == moved.parent
  {
    var p := MoveStatements(id, moved, n);
    var r1 := RowAt(p, 1, id, moved);
    var r2 := RowAt(p, 2, id, moved);
    var r3 := RowAt(p, 3, id, moved);
    var r4 := RowAt(p, 4, id, moved);
    var r5 := RowAt(p, 5, id, moved);
    assert RowAt(p, 0, id, moved) == moved;
  }

  /** The place where a move below zero would end is already taken. */
  ghost predicate MirrorTaken(t: Table, id: int, n: int)
    requires id in t
  {
    exists i :: i in t && i != id && t[i].parent == t[id].parent && Moved(t[id].pos, n, t[i].pos) == -n
  }

  /** A row other than the moved one, after the first k statements. */
  function Stage(moved: Row, n: int, k: nat, r: Row): Row {
    var from := if moved.pos > n then n else n + 1;
    var up := if r.parent == moved.parent && r.pos >= from then r.pos + 1 else r.pos;
    var down := r.parent == moved.parent && up > moved.pos;
    r.(pos :=
      if k == 0 then r.pos
      else if k == 1 then if up == r.pos then up else -up
      else if k <= 3 then up
      else if !down then up
      else if k == 4 then -(up - 1) else up - 1)
  }

  lemma StageIs(id: int, moved: Row, n: int, k: nat, i: int, r: Row)
    requires moved.pos > 0 && r.pos > 0 && i != id && k < 5
    requires r.parent == moved.parent ==> r.pos != moved.pos
    ensures var p := MoveStatements(id, moved, n);
            && RowAt(p, k, i, r) == Stage(moved, n, k, r)
            && RowAfter(p[k], i, RowAt(p, k, i, r)) == Stage(moved, n, k + 1, r)
  {
    OtherRowStages(id, moved, n, i, r);
    var p := MoveStatements(id, moved, n);
    assert RowAt(p, 0, i, r) == r;
    assert RowAfter(p[k], i, RowAt(p, k, i, r)) == RowAt(p, k + 1, i, r);
  }

  lemma StagesDiffer(moved: Row, n: int, k: nat, r: Row, q: Row)
    requires moved.pos > 0 && r.pos > 0 && q.pos > 0 && k < 5 && r.parent == q.parent && r.pos != q.pos
    requires r.parent == moved.parent ==> r.pos != moved.pos && q.pos != moved.pos
    ensures Stage(moved, n, k, r).pos != Stage(moved, n, k, q).pos
    ensures Stage(moved, n, k + 1, r).pos != Stage(moved, n, k, q).pos
    ensures Stage(moved, n, k + 1, r).pos != Stage(moved, n, k + 1, q).pos
  {
  }

  lemma TwoOthersApart(t: Table, id: int, n: int, k: nat, i: int, j: int)
    requires Unique(t) && Positive(t) && id in t && i in t && j in t && i != j && i != id && j != id && k < 5
    ensures var p := MoveStatements(id, t[id], n);
            Apart(p[k], i, RowAt(p, k, i, t[i]), j, RowAt(p, k, j, t[j]))
  {
    StageIs(id, t[id], n, k, i, t[i]);
    StageIs(id, t[id], n, k, j, t[j]);
    if t[i].parent == t[j].parent {
      StagesDiffer(t[id], n, k, t[i], t[j]);
      StagesDiffer(t[id], n, k, t[j], t[i]);
    }
  }

  lemma MovedAndOtherApart(t: Table, id: int, n: int, k: nat, i: int)
    requires Unique(t) && Positive(t) && id in t && i in t && i != id && k < 5
    requires n < 0 ==> !(t[i].parent == t[id].parent && Moved(t[id].pos, n, t[i].pos) == -n)
    ensures var p := MoveStatements(id, t[id], n);
            && Apart(p[k], id, RowAt(p, k, id, t[id]), i, RowAt(p, k, i, t[i]))
            && Apart(p[k], i, RowAt(p, k, i, t[i]), id, RowAt(p, k, id, t[id]))
  {
    var p := MoveStatements(id, t[id], n);
    OtherRowStages(id, t[id], n, i, t[i]);
    MovedRowStages(id, t[id], n);
    assert RowAt(p, 0, i, t[i]) == t[i] && RowAt(p, 0, id, t[id]) == t[id];
    assert RowAfter(p[k], i, RowAt(p, k, i, t[i])) == RowAt(p, k + 1, i, t[i]);
    assert RowAfter(p[k], id, RowAt(p, k, id, t[id])) == RowAt(p, k + 1, id, t[id]);
  }

  lemma StageLegal(t: Table, id: int, n: int, k: nat)
    requires Unique(t) && Positive(t) && id in t && k < 5
    requires n >= 0 || !MirrorTaken(t, id, n)
    ensures var p := MoveStatements(id, t[id], n); Legal(p[k], TableAt(p, k, t))
  {
    var p := MoveStatements(id, t[id], n);
    var tk := TableAt(p, k, t);
    forall i, j | i in tk && j in tk && i != j ensures Apart(p[k], i, tk[i], j, tk[j]) {
      if i != id && j != id {
        TwoOthersApart(t, id, n, k, i, j);
      } else {
        MovedAndOtherApart(t, id, n, k, if i == id then j else i);
      }
    }
    LegalIffPairwise(p[k], tk);
  }

  lemma MirrorClash(t: Table, id: int, n: int)
    requires Unique(t) && Positive(t) && id in t && n < 0 && MirrorTaken(t, id, n)
    ensures var p := MoveStatements(id, t[id], n); !Legal(p[4], TableAt(p, 4, t))
  {
    var p := MoveStatements(id, t[id], n);
    var i :| i in t && i != id && t[i].parent == t[id].parent && Moved(t[id].pos, n, t[i].pos) == -n;
    OtherRowStages(id, t[id], n, i, t[i]);
    MovedRowStages(id, t[id], n);
    var t4 := TableAt(p, 4, t);
    assert RowAfter(p[4], i, t4[i]) == RowAt(p, 5, i, t[i]);
    assert RowAfter(p[4], id, t4[id]) == RowAt(p, 5, id, t[id]);
    assert !Apart(p[4], i, t4[i], id, t4[id]);
    LegalIffPairwise(p[4], t4);
  }

  /** The program breaks the constraint at no row step, in no order, exactly when the mirrored place is free. */
  lemma MoveIsLegal(t: Table, id: int, n: int)
    requires Unique(t) && Positive(t) && id in t
    ensures LegalRun(MoveStatements(id, t[id], n), t) <==> (n >= 0 || !MirrorTaken(t, id, n))
  {
    var p := MoveStatements(id, t[id], n);
    WholeRun(p, t);
    if n >= 0 || !MirrorTaken(t, id, n) {
      forall m | 0 <= m < |p| ensures Legal(p[m], TableAt(p, m, t)) {
        StageLegal(t, id, n, m);
      }
    } else {
      MirrorClash(t, id, n);
    }
  }

  lemma FinalRow(t: Table, id: int, n: int, i: int)
    requires Unique(t) && Positive(t) && id in t && i in t
    ensures RowAt(MoveStatements(id, t[id], n), 5, i, t[i]) ==
            if i == id then Row(t[id].parent, if n < 0 then -n else n) else MovedTable(t, id, n)[i]
  {
    if i == id {
      MovedRowStages(id, t[id], n);
    } else {
      OtherRowStages(id, t[id], n, i, t[i]);
    }
  }

  /** The committed table: the cyclic shift, but a target below zero is mirrored by the last flip. */
  function Committed(t: Table, id: int, n: int): Table
    requires id in t
  {
    MovedTable(t, id, n)[id := Row(t[id].parent, if n < 0 then -n else n)]
  }

  lemma FinalTable(t: Table, id: int, n: int)
    requires Unique(t) && Positive(t) && id in t
    ensures TableAt(MoveStatements(id, t[id], n), 5, t) == Committed(t, id, n)
  {
    var want := Committed(t, id, n);
    forall i | i in t ensures RowAt(MoveStatements(id, t[id], n), 5, i, t[i]) == want[i] {
      FinalRow(t, id, n, i);
    }
  }

  lemma MoveComputes(t: Table, id: int, n: int)
    requires Unique(t) && Positive(t) && id in t
    ensures Run(MoveStatements(id, t[id], n), t) == Committed(t, id, n)
  {
    FinalTable(t, id, n);
    RunLast(MoveStatements(id, t[id], n), 5, t);
  }

  lemma RunLast(program: seq<Statement>, k: nat, t: Table)
    requires k == |program|
    ensures Run(program, t) == TableAt(program, k, t)
  {
    WholeRun(program, t);
  }

  /** The committed table is the intended shift exactly for targets that are not negative. */
  lemma CommittedAsIntended(t: Table, id: int, n: int)
    requires id in t
    ensures Committed(t, id, n) == MovedTable(t, id, n) <==> n >= 0
  {
    assert MovedTable(t, id, n)[id].pos == n;
    if n >= 0 { assert Committed(t, id, n) == MovedTable(t, id, n); }
  }

  /** A committed move leaves the table unique and positive again, unless it placed the row at 0. */
  lemma MoveKeepsTable(t: Table, id: int, n: int)
    requires Unique(t) && Positive(t) && id in t
    requires LegalRun(MoveStatements(id, t[id], n), t)
    ensures var after := Run(MoveStatements(id, t[id], n), t);
            && Unique(after)
            && (Positive(after) <==> n != 0)
  {
    MoveIsLegal(t, id, n);
    MoveComputes(t, id, n);
    CommittedIsUnique(t, id, n);
    assert Committed(t, id, n)[id].pos == (if n < 0 then -n else n);
  }

  lemma CommittedIsUnique(t: Table, id: int, n: int)
    requires Unique(t) && Positive(t) && id in t && (n >= 0 || !MirrorTaken(t, id, n))
    ensures Unique(Committed(t, id, n))
    ensures Positive(Committed(t, id, n)) <==> n != 0
  {
    var after := Committed(t, id, n);
    forall i, j | i in after && j in after && i != j && after[i].parent == after[j].parent
      ensures after[i].pos != after[j].pos
    {
      assert t[i].pos != t[j].pos;
    }
    assert after[id].pos == if n < 0 then -n else n;
  }

  lemma CommittedUniqueIff(t: Table, id: int, n: int)
    requires Unique(t) && Positive(t) && id in t
    ensures Unique(Committed(t, id, n)) <==> n >= 0 || !MirrorTaken(t, id, n)
  {
    if n >= 0 || !MirrorTaken(t, id, n) {
      CommittedIsUnique(t, id, n);
    } else {
      var i :| i in t && i != id && t[i].parent == t[id].parent && Moved(t[id].pos, n, t[i].pos) == -n;
      assert Committed(t, id, n)[i].pos == Committed(t, id, n)[id].pos;
    }
  }
}
