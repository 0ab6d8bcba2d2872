/** What moving one item of an ordered list does to every position, and how the
    position-sorted views see it.  Positions may have gaps. */
module Positions {

  /** The position that an item standing at `q` has after the item at `p` was moved to `n`. */
  function Moved(p: int, n: int, q: int): int {
    if q == p then n
    else if n <= q < p then q + 1
    else if p < q <= n then q - 1
    else q
  }

  /** The same for another item, which may stand at `p` too: the loop over the cached objects leaves that one. */
  function Beside(p: int, n: int, q: int): (r: int)
    ensures q != p ==> r == Moved(p, n, q)
  {
    if q == p then q else Moved(p, n, q)
  }

  /** A move is a permutation of the integers, and the opposite move is its inverse. */
  lemma MoveBackRestores(p: int, n: int, q: int)
    ensures Moved(n, p, Moved(p, n, q)) == q
  {
  }

  /** Items other than the moved one keep their relative order. */
  lemma MoveKeepsOthersInOrder(p: int, n: int, q: int, r: int)
    requires q != p && r != p
    ensures q < r <==> Moved(p, n, q) < Moved(p, n, r)
    ensures Moved(p, n, q) != n
  {
  }

  type Positioning<T> = map<T, int>

  ghost predicate Distinct<T(!new)>(pos: Positioning<T>) {
    forall i, j :: i in pos && j in pos && i != j ==> pos[i] != pos[j]
  }

  /** `view` lists exactly the items of `pos`, by strictly increasing position. */
  ghost predicate IsView<T(!new)>(view: seq<T>, pos: Positioning<T>) {
    && (forall i :: i in pos <==> i in view)
    && (forall a, b :: 0 <= a < b < |view| ==> pos[view[a]] < pos[view[b]])
  }

  function MovedPositions<T(!new)>(pos: Positioning<T>, item: T, n: int): Positioning<T>
    requires item in pos
  {
    map i | i in pos :: Moved(pos[item], n, pos[i])
  }

  function RemoveAt<T(!new)>(view: seq<T>, k: int): seq<T>
    requires 0 <= k < |view|
  {
    view[..k] + view[k + 1..]
  }

  function InsertAt<T(!new)>(view: seq<T>, k: int, item: T): seq<T>
    requires 0 <= k <= |view|
  {
    view[..k] + [item] + view[k..]
  }

  /** Two views of the same positions are the same list. */
  lemma {:induction false} ViewIsUnique<T(!new)>(v: seq<T>, w: seq<T>, pos: Positioning<T>)
    requires IsView(v, pos) && IsView(w, pos)
    ensures v == w
    decreases |v|
  {
    if |v| == 0 || |w| == 0 {
      EmptyView(v, w, pos);
      EmptyView(w, v, pos);
    } else {
      SameLast(v, w, pos);
      var x := v[|v| - 1];
      var rest := map i | i in pos && i != x :: pos[i];
      DropLast(v, pos, rest);
      DropLast(w, pos, rest);
      ViewIsUnique(v[..|v| - 1], w[..|w| - 1], rest);
      assert v == v[..|v| - 1] + [x] && w == w[..|w| - 1] + [x];
    }
  }

  lemma EmptyView<T(!new)>(v: seq<T>, w: seq<T>, pos: Positioning<T>)
    requires IsView(v, pos) && IsView(w, pos)
    ensures |v| == 0 ==> |w| == 0
  {
    if |w| > 0 {
      var x := w[0];
      assert x in w;
      assert x in pos;
    }
  }

  lemma SameLast<T(!new)>(v: seq<T>, w: seq<T>, pos: Positioning<T>)
    requires IsView(v, pos) && IsView(w, pos) && |v| > 0 && |w| > 0
    ensures v[|v| - 1] == w[|w| - 1]
  {
    var x, y := v[|v| - 1], w[|w| - 1];
    assert x in v && y in w;
    assert x in pos && y in pos;
    assert x in w && y in v;
    var a :| 0 <= a < |w| && w[a] == x;
    var b :| 0 <= b < |v| && v[b] == y;
  }

  lemma DropLast<T(!new)>(v: seq<T>, pos: Positioning<T>, rest: Positioning<T>)
    requires IsView(v, pos) && |v| > 0
    requires rest == map i | i in pos && i != v[|v| - 1] :: pos[i]
    ensures IsView(v[..|v| - 1], rest)
  {
    var front := v[..|v| - 1];
    assert v == front + [v[|v| - 1]];
    forall i ensures i in rest <==> i in front {
      if i in front {
        var k :| 0 <= k < |front| && front[k] == i;
        assert pos[v[k]] < pos[v[|v| - 1]];
      }
    }
  }

  /** On positions 1..N the sorted view turns a move into: take the item out at p, put it back at n. */
  lemma MoveIsRemoveThenInsert<T(!new)>(view: seq<T>, pos: Positioning<T>, item: T, n: int, moved: seq<T>)
    requires IsView(view, pos) && item in pos
    requires forall k :: 0 <= k < |view| ==> view[k] in pos && pos[view[k]] == k + 1
    requires 1 <= n <= |view|
    ensures 1 <= pos[item] <= |view|
    ensures IsView(moved, MovedPositions(pos, item, n)) <==>
              moved == InsertAt(RemoveAt(view, pos[item] - 1), n - 1, item)
  {
    var k :| 0 <= k < |view| && view[k] == item;
    var w := InsertAt(RemoveAt(view, k), n - 1, item);
    RebuiltIsView(view, pos, item, n, k, w);
    TheView(moved, w, MovedPositions(pos, item, n));
  }

  lemma TheView<T(!new)>(v: seq<T>, w: seq<T>, pos: Positioning<T>)
    requires IsView(w, pos)
    ensures IsView(v, pos) <==> v == w
  {
    if IsView(v, pos) {
      ViewIsUnique(v, w, pos);
    }
  }

  lemma RebuiltIsView<T(!new)>(view: seq<T>, pos: Positioning<T>, item: T, n: int, k: nat, w: seq<T>)
    requires IsView(view, pos) && item in pos
    requires forall k :: 0 <= k < |view| ==> view[k] in pos && pos[view[k]] == k + 1
    requires 1 <= n <= |view| && k < |view| && view[k] == item && w == InsertAt(RemoveAt(view, k), n - 1, item)
    ensures IsView(w, MovedPositions(pos, item, n))
  {
    var after := MovedPositions(pos, item, n);
    RemoveInsertAt(view, k, n - 1);
    forall a | 0 <= a < |w| ensures w[a] in pos && after[w[a]] == a + 1 {
      var j := Moved(n - 1, k, a);
      assert w[a] == view[j];
    }
    forall i ensures i in after <==> i in w {
      RebuiltMembers(view, k, n - 1, w, i);
    }
  }

  lemma RebuiltMembers<T(!new)>(view: seq<T>, k: nat, m: nat, w: seq<T>, i: T)
    requires k < |view| && m < |view| && w == InsertAt(RemoveAt(view, k), m, view[k])
    ensures i in w <==> i in view
  {
    var rest := RemoveAt(view, k);
    assert view == view[..k] + ([view[k]] + view[k + 1..]);
    assert rest == rest[..m] + rest[m..];
    assert i in rest <==> i in view[..k] || i in view[k + 1..];
    assert i in w <==> i in rest[..m] || i == view[k] || i in rest[m..];
  }

  /** Where each element of the rebuilt list comes from. */
  lemma RemoveInsertAt<T(!new)>(view: seq<T>, k: int, m: int)
    requires 0 <= k < |view| && 0 <= m < |view|
    ensures var w := InsertAt(RemoveAt(view, k), m, view[k]);
            && |w| == |view|
            && forall a :: 0 <= a < |w| ==> 0 <= Moved(m, k, a) < |view| && w[a] == view[Moved(m, k, a)]
  {
  }

  /** With gaps as well: positions stay distinct, the others keep their order, and moving back restores all. */
  lemma MoveWithGaps<T(!new)>(pos: Positioning<T>, item: T, n: int)
    requires Distinct(pos) && item in pos
    ensures var after := MovedPositions(pos, item, n);
            && Distinct(after)
            && after[item] == n
            && (forall i, j :: i in pos && j in pos && i != item && j != item ==>
                  (pos[i] < pos[j] <==> after[i] < after[j]))
            && MovedPositions(after, item, pos[item]) == pos
  {
    var after := MovedPositions(pos, item, n);
    forall i | i in pos ensures Moved(n, pos[item], after[i]) == pos[i] {
      MoveBackRestores(pos[item], n, pos[i]);
    }
    assert MovedPositions(after, item, pos[item]) == pos;
  }
}
