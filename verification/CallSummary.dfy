/** The summary of a user's active calls, folded over a map whose iteration order is arbitrary. */
module CallSummary {

  datatype Call = Call(uuid: string, createdAt: int, direction: string, talking: bool)

  datatype Summary = Summary(talking: bool, callDate: int, lastUuid: string, direction: string, selectedTalkingAt: int)

  const EMPTY := Summary(false, 0, "", "", 0)

  /** One iteration of the loop. */
  function Visit(u: Summary, call: Call): Summary {
    var v :=
      if u.callDate == 0 || (call.createdAt > 0 && call.createdAt < u.callDate) then
        u.(callDate := call.createdAt,
           direction := call.direction,
           lastUuid := if !u.talking then call.uuid else u.lastUuid)
      else u;
    if call.talking && (!v.talking || v.selectedTalkingAt == 0 ||
        (call.createdAt > 0 && call.createdAt < v.selectedTalkingAt)) then
      v.(talking := true, lastUuid := call.uuid, direction := call.direction, selectedTalkingAt := call.createdAt)
    else v
  }

  function Fold(order: seq<Call>): Summary {
    if order == [] then EMPTY else Visit(Fold(order[..|order| - 1]), order[|order| - 1])
  }

  /** `order` visits every call of `calls` once. */
  ghost predicate Orders(order: seq<Call>, calls: set<Call>) {
    && (forall c :: c in calls <==> c in order)
    && (forall a, b :: 0 <= a < b < |order| ==> order[a] != order[b])
  }

  ghost predicate Within(order: seq<Call>, calls: set<Call>) {
    forall c :: c in order ==> c in calls
  }

  // ----- what the fold computes -----

  /** `d` is the least positive creation time among `order`, or 0 when none is positive. */
  ghost predicate LeastPositive(d: int, order: seq<Call>) {
    && (d == 0 ==> forall c :: c in order ==> c.createdAt <= 0)
    && (d != 0 ==> d > 0 && exists c :: c in order && c.createdAt == d)
    && (forall c :: c in order && c.createdAt > 0 ==> d <= c.createdAt)
  }

  function Talkers(order: seq<Call>): seq<Call> {
    if order == [] then []
    else
      var front := Talkers(order[..|order| - 1]);
      if order[|order| - 1].talking then front + [order[|order| - 1]] else front
  }

  lemma {:induction false} TalkersAre(order: seq<Call>)
    ensures forall c :: c in Talkers(order) <==> c in order && c.talking
  {
    if order != [] {
      TalkersAre(order[..|order| - 1]);
      assert order == order[..|order| - 1] + [order[|order| - 1]];
    }
  }

  lemma {:induction false} FoldTalking(order: seq<Call>)
    ensures Fold(order).talking <==> exists c :: c in order && c.talking
  {
    if order != [] {
      FoldTalking(order[..|order| - 1]);
      assert order == order[..|order| - 1] + [order[|order| - 1]];
    }
  }

  lemma {:induction false} FoldDates(order: seq<Call>)
    requires forall c :: c in order ==> c.createdAt >= 0
    ensures LeastPositive(Fold(order).callDate, order)
    ensures Fold(order).talking ==> LeastPositive(Fold(order).selectedTalkingAt, Talkers(order))
    ensures !Fold(order).talking ==> Fold(order).selectedTalkingAt == 0
  {
    if order != [] {
      var front, last := order[..|order| - 1], order[|order| - 1];
      assert order == front + [last];
      assert forall c :: c in front ==> c in order;
      FoldDates(front);
      FoldTalking(front);
      TalkersAre(front);
      TalkersAre(order);
    }
  }

  // ----- order independence -----

  lemma LeastPositiveUnique(d: int, o: seq<Call>, e: int, p: seq<Call>)
    requires LeastPositive(d, o) && LeastPositive(e, p)
    requires forall c :: c in o <==> c in p
    ensures d == e
  {
  }

  /** Talking and, for creation times that are not negative, CallDate are the same for every order. */
  lemma SummaryIgnoresOrder(calls: set<Call>, o: seq<Call>, p: seq<Call>)
    requires Orders(o, calls) && Orders(p, calls)
    ensures Fold(o).talking == Fold(p).talking
    ensures (forall c :: c in calls ==> c.createdAt >= 0) ==> Fold(o).callDate == Fold(p).callDate
  {
    FoldTalking(o);
    FoldTalking(p);
    if forall c :: c in calls ==> c.createdAt >= 0 {
      FoldDates(o);
      FoldDates(p);
      LeastPositiveUnique(Fold(o).callDate, o, Fold(p).callDate, p);
    }
  }

  ghost predicate DistinctDates(calls: set<Call>) {
    && (forall c :: c in calls ==> c.createdAt > 0)
    && (forall c, d :: c in calls && d in calls && c != d ==> c.createdAt != d.createdAt)
  }

  ghost predicate Earliest(c: Call, calls: set<Call>) {
    c in calls && forall d :: d in calls ==> c.createdAt <= d.createdAt
  }

  ghost predicate EarliestTalker(c: Call, calls: set<Call>) {
    c in calls && c.talking && forall d :: d in calls && d.talking ==> c.createdAt <= d.createdAt
  }

  /** The direction was last written for this call. */
  predicate Decided(c: Call, u: Summary) {
    c.createdAt == u.callDate || (u.talking && c.talking && c.createdAt == u.selectedTalkingAt)
  }

  /** Which calls the fold took its identifier and direction from. */
  lemma {:induction false} FoldSelects(order: seq<Call>)
    requires DistinctDates(set c | c in order)
    ensures var u := Fold(order);
            && (u.talking ==> exists c ::
                c in order && c.talking && c.createdAt == u.selectedTalkingAt && u.lastUuid == c.uuid)
            && (!u.talking && order != [] ==> exists c ::
                c in order && c.createdAt == u.callDate && u.lastUuid == c.uuid)
            && (order != [] ==>
                  exists c :: c in order && u.direction == c.direction && Decided(c, u))
            && (!u.talking && order != [] ==> exists c ::
                c in order && u.direction == c.direction && c.createdAt == u.callDate)
  {
    if order != [] {
      var front, last := order[..|order| - 1], order[|order| - 1];
      assert order == front + [last];
      assert forall c :: c in front ==> c in order && c in (set c | c in order);
      assert last in order && last in (set c | c in order);
      FoldSelects(front);
      FoldDates(front);
      FoldTalking(front);
    }
  }

  /** With distinct positive creation times LastUuid is the earliest talking call, else the earliest call. */
  lemma LastUuidIsEarliest(calls: set<Call>, o: seq<Call>, c: Call)
    requires Orders(o, calls) && DistinctDates(calls)
    requires if exists t :: t in calls && t.talking then EarliestTalker(c, calls) else Earliest(c, calls)
    ensures Fold(o).lastUuid == c.uuid
    ensures Fold(o).talking <==> exists t :: t in calls && t.talking
    ensures !Fold(o).talking ==> Fold(o).direction == c.direction
  {
    assert (set x | x in o) == calls;
    FoldSelects(o);
    FoldDates(o);
    FoldTalking(o);
    TalkersAre(o);
    var u := Fold(o);
    if u.talking {
      var d :| d in o && d.talking && d.createdAt == u.selectedTalkingAt && u.lastUuid == d.uuid;
      assert c in Talkers(o) && d in Talkers(o);
    } else {
      var d :| d in o && d.createdAt == u.callDate && u.lastUuid == d.uuid;
    }
  }

  // ----- where the order does show -----

  function ToFront(order: seq<Call>, k: nat): seq<Call>
    requires k < |order|
  {
    [order[k]] + order[..k] + order[k + 1..]
  }

  lemma ToFrontOrders(order: seq<Call>, k: nat, calls: set<Call>)
    requires Orders(order, calls) && k < |order|
    ensures Orders(ToFront(order, k), calls)
  {
    var f := ToFront(order, k);
    forall c ensures c in order <==> c in f {
      if c in order {
        var j :| 0 <= j < |order| && order[j] == c;
        assert f[if j == k then 0 else if j < k then j + 1 else j] == c;
      }
    }
    assert forall a :: 1 <= a < |f| ==> f[a] == order[if a <= k then a - 1 else a];
  }

  /** Every call can be the first one visited, and every other one the second. */
  lemma SomeOrderStartsWith(calls: set<Call>, order: seq<Call>, c: Call, d: Call) returns (o: seq<Call>)
    requires Orders(order, calls) && c in calls && d in calls && c != d
    ensures Orders(o, calls) && |o| >= 2 && o[0] == c && o[1] == d
  {
    var k :| 0 <= k < |order| && order[k] == d;
    var o1 := ToFront(order, k);
    ToFrontOrders(order, k, calls);
    var j :| 0 <= j < |o1| && o1[j] == c;
    o := ToFront(o1, j);
    ToFrontOrders(o1, j, calls);
    assert o[1] == o1[0];
  }

  /** Once a first date was taken its sign never changes, and a negative one never changes at all. */
  lemma {:induction false} FirstDateSticks(order: seq<Call>)
    requires order != [] && order[0].createdAt != 0
    ensures order[0].createdAt < 0 ==> Fold(order).callDate == order[0].createdAt
    ensures order[0].createdAt > 0 ==> Fold(order).callDate > 0
  {
    if |order| > 1 {
      FirstDateSticks(order[..|order| - 1]);
    } else {
      assert order[..0] == [] && Fold(order) == Visit(EMPTY, order[0]);
    }
  }

  lemma {:induction false} OneDateOnly(order: seq<Call>, v: int)
    requires forall c :: c in order ==> c.createdAt == 0 || c.createdAt == v
    ensures Fold(order).callDate == if exists c :: c in order && c.createdAt == v then v else 0
  {
    if order != [] {
      var front, last := order[..|order| - 1], order[|order| - 1];
      assert order == front + [last];
      assert forall c :: c in front ==> c in order;
      OneDateOnly(front, v);
    }
  }

  /** CallDate is independent of the order exactly when no creation time is negative or all non-zero ones are equal. */
  lemma CallDateIgnoresOrderIff(calls: set<Call>, order: seq<Call>)
    requires Orders(order, calls)
    ensures (forall o, p :: Orders(o, calls) && Orders(p, calls) ==> Fold(o).callDate == Fold(p).callDate)
       <==> ((forall c :: c in calls ==> c.createdAt >= 0)
             || (forall c, d :: c in calls && d in calls && c.createdAt != 0 && d.createdAt != 0 ==>
                 c.createdAt == d.createdAt))
  {
    if forall c :: c in calls ==> c.createdAt >= 0 {
      forall o, p | Orders(o, calls) && Orders(p, calls) ensures Fold(o).callDate == Fold(p).callDate {
        SummaryIgnoresOrder(calls, o, p);
      }
    } else if forall c, d :: c in calls && d in calls && c.createdAt != 0 && d.createdAt != 0 ==>
        c.createdAt == d.createdAt {
      var n :| n in calls && n.createdAt < 0;
      forall o, p | Orders(o, calls) && Orders(p, calls) ensures Fold(o).callDate == Fold(p).callDate {
        OneDateOnly(o, n.createdAt);
        OneDateOnly(p, n.createdAt);
      }
    } else {
      var n :| n in calls && n.createdAt < 0;
      var c, d :| c in calls && d in calls && c.createdAt != 0 && d.createdAt != 0 && c.createdAt != d.createdAt;
      var e := if c.createdAt != n.createdAt then c else d;
      var o := SomeOrderStartsWith(calls, order, n, e);
      var p := SomeOrderStartsWith(calls, order, e, n);
      FirstDateSticks(o);
      FirstDateSticks(p);
      assert Fold(o).callDate != Fold(p).callDate;
    }
  }

  /** After the earliest call and the earliest talker were visited nothing changes the direction any more. */
  lemma {:induction false} DirectionSettles(order: seq<Call>, first: Call, second: Call, calls: set<Call>)
    requires |order| >= 2 && order[0] == first && order[1] == second && first != second
    requires Within(order, calls) && DistinctDates(calls)
    requires (Earliest(first, calls) && EarliestTalker(second, calls)) ||
             (EarliestTalker(first, calls) && Earliest(second, calls))
    requires !(first.talking && second.talking)
    ensures var u := Fold(order);
            && u.direction == second.direction
            && u.talking
            && u.callDate == (if second.talking then first else second).createdAt
            && u.selectedTalkingAt == (if second.talking then second else first).createdAt
  {
    assert first in order && second in order;
    if |order| == 2 {
      assert order[..1] == [first] && order[..1][..0] == [];
      assert Fold([first]) == Visit(EMPTY, first);
      assert Fold(order) == Visit(Fold([first]), second);
    } else {
      var front, last := order[..|order| - 1], order[|order| - 1];
      assert forall c :: c in front ==> c in order;
      assert last in order;
      DirectionSettles(front, first, second, calls);
    }
  }

  /** CallDirection: the earliest talker and the earliest call decide it, and with both the order does. */
  lemma DirectionIgnoresOrderIff(calls: set<Call>, order: seq<Call>, e: Call, t: Call)
    requires Orders(order, calls) && DistinctDates(calls)
    requires Earliest(e, calls) && EarliestTalker(t, calls)
    ensures forall o :: Orders(o, calls) ==> Fold(o).direction == e.direction || Fold(o).direction == t.direction
    ensures (forall o, p :: Orders(o, calls) && Orders(p, calls) ==> Fold(o).direction == Fold(p).direction)
       <==> e.direction == t.direction
  {
    forall o | Orders(o, calls) ensures Fold(o).direction == e.direction || Fold(o).direction == t.direction {
      DirectionFrom(calls, o, e, t);
    }
    if e.direction != t.direction {
      assert !e.talking;
      var o := SomeOrderStartsWith(calls, order, e, t);
      var p := SomeOrderStartsWith(calls, order, t, e);
      DirectionSettles(o, e, t, calls);
      DirectionSettles(p, t, e, calls);
      assert Fold(o).direction != Fold(p).direction;
    }
  }

  lemma DirectionFrom(calls: set<Call>, o: seq<Call>, e: Call, t: Call)
    requires Orders(o, calls) && DistinctDates(calls)
    requires Earliest(e, calls) && EarliestTalker(t, calls)
    ensures Fold(o).direction == e.direction || Fold(o).direction == t.direction
  {
    assert (set x | x in o) == calls;
    FoldSelects(o);
    FoldDates(o);
    FoldTalking(o);
    TalkersAre(o);
    var u := Fold(o);
    assert e in o && t in o && t in Talkers(o);
    var d :| d in o && u.direction == d.direction && Decided(d, u);
    if d.createdAt == u.callDate {
      assert d == e;
    } else {
      assert d in Talkers(o);
      assert d == t;
    }
  }
}
