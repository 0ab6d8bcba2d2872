/** Time-window de-duplication: the table of seen webhook events and the table of used nonces forget old entries;
    what they then decide is said against the full history.  Times are nanoseconds. */
module EventWindow {
  import opened AnyOrder

  const MINUTE := 60_000_000_000
  const EVENT_DEDUPE_TTL := 10 * MINUTE
  const MAX_CLOCK_SKEW := MINUTE

  type Seen = map<string, int>

  /** One request in the full history: not refused as a repetition, and put on the queue. */
  datatype Attempt = Attempt(id: string, now: int, taken: bool, queued: bool)

  /** An earlier request with this id was taken less than `width` ago. */
  ghost predicate Recent(past: seq<Attempt>, id: string, now: int, width: int) {
    exists j :: 0 <= j < |past| && past[j].taken && past[j].id == id && now - past[j].now < width
  }

  /** How a table is kept: the width of its window, ids that never enter it, and whether refused requests prune it
      too. */
  datatype Window = Window(width: int, exempt: set<string>, always: bool)

  predicate Enters(a: Attempt, w: Window) {
    a.taken && a.id !in w.exempt
  }

  predicate Prunes(a: Attempt, w: Window) {
    w.always || Enters(a, w)
  }

  /** Request `j` entered the table, and no pruning request since then came `width` or more after it. */
  ghost predicate Standing(past: seq<Attempt>, j: int, w: Window) {
    && 0 <= j < |past| && Enters(past[j], w)
    && forall k :: j < k < |past| && Prunes(past[k], w) ==> past[k].now - past[j].now < w.width
  }

  /** A standing request with this id lies less than `width` before `now`. */
  ghost predicate Live(past: seq<Attempt>, id: string, now: int, w: Window) {
    exists j :: Standing(past, j, w) && past[j].id == id && now - past[j].now < w.width
  }

  /** The decision, exactly. */
  ghost predicate Decided(past: seq<Attempt>, a: Attempt, w: Window) {
    a.taken <==> a.id in w.exempt || !Live(past, a.id, a.now, w)
  }

  ghost predicate Faithful(past: seq<Attempt>, w: Window) {
    forall i {:trigger past[i]} :: 0 <= i < |past| ==> Decided(past[..i], past[i], w)
  }

  /** Some request between `i` and `j` pruned what `i` had entered. */
  ghost predicate Forgotten(past: seq<Attempt>, i: int, j: int, w: Window)
    requires 0 <= i < j <= |past|
  {
    exists k :: i < k < j && Prunes(past[k], w) && past[k].now - past[i].now >= w.width
  }

  lemma ForgottenIff(past: seq<Attempt>, i: nat, j: nat, w: Window)
    requires i < j <= |past| && Enters(past[i], w)
    ensures Forgotten(past, i, j, w) <==> !Standing(past[..j], i, w)
  {
    assert past[..j][i] == past[i];
    if k :| i < k < j && Prunes(past[k], w) && past[k].now - past[i].now >= w.width {
      assert past[..j][k] == past[k];
    }
    if k :| i < k < j && Prunes(past[..j][k], w) && past[..j][k].now - past[..j][i].now >= w.width {
      assert past[..j][k] == past[k];
    }
  }

  /** A request is taken exactly when every earlier taken one with its id lies a window before it or was forgotten. */
  lemma TakenIff(past: seq<Attempt>, w: Window, j: nat)
    requires Faithful(past, w) && j < |past| && past[j].id !in w.exempt
    ensures past[j].taken <==>
              forall i :: 0 <= i < j && past[i].taken && past[i].id == past[j].id ==>
                past[j].now - past[i].now >= w.width || Forgotten(past, i, j, w)
  {
    assert Decided(past[..j], past[j], w);
    forall i | 0 <= i < j && past[i].taken && past[i].id == past[j].id
      ensures Forgotten(past, i, j, w) <==> !Standing(past[..j], i, w)
    {
      ForgottenIff(past, i, j, w);
    }
    if i :| Standing(past[..j], i, w) && past[..j][i].id == past[j].id && past[j].now - past[..j][i].now < w.width {
      assert past[i].taken && past[i].id == past[j].id;
    }
    if i :| 0 <= i < j && past[i].taken && past[i].id == past[j].id
            && past[j].now - past[i].now < w.width && !Forgotten(past, i, j, w) {
      assert Standing(past[..j], i, w) && past[..j][i] == past[i];
    }
  }

  /** No earlier request carries a later time.  Times are read before the lock is taken, so this need not hold. */
  ghost predicate NotBefore(past: seq<Attempt>, now: int) {
    forall j :: 0 <= j < |past| ==> past[j].now <= now
  }

  /** For a request that was not overtaken the standing requests decide like all of them. */
  lemma InOrderIsHistory(past: seq<Attempt>, id: string, now: int, w: Window)
    requires id !in w.exempt && NotBefore(past, now)
    ensures Live(past, id, now, w) <==> Recent(past, id, now, w.width)
  {
    if j :| 0 <= j < |past| && past[j].taken && past[j].id == id && now - past[j].now < w.width {
      assert Standing(past, j, w);
    }
  }

  /** A refused request repeats one that was taken less than the window before it. */
  lemma RefusedRepeats(past: seq<Attempt>, w: Window, i: nat)
    requires Faithful(past, w) && i < |past| && !past[i].taken
    ensures exists j :: 0 <= j < i && past[j].taken && past[j].id == past[i].id && past[i].now - past[j].now < w.width
  {
    assert Decided(past[..i], past[i], w);
    var j :| Standing(past[..i], j, w) && past[..i][j].id == past[i].id && past[i].now - past[..i][j].now < w.width;
    assert past[j].taken;
  }

  // ----- the pruned table -----

  /** The entries younger than `width`. */
  function Young(seen: Seen, now: int, width: int): Seen {
    map id | id in seen && now - seen[id] < width :: seen[id]
  }

  /** The entry is that of a standing request. */
  ghost predicate Entry(past: seq<Attempt>, id: string, at: int, w: Window) {
    exists j :: Standing(past, j, w) && past[j].id == id && past[j].now == at
  }

  /** The table holds exactly the standing requests. */
  ghost predicate Remembers(seen: Seen, past: seq<Attempt>, w: Window) {
    && Faithful(past, w)
    && (forall id :: id in seen ==> Entry(past, id, seen[id], w))
    && (forall j :: Standing(past, j, w) ==> past[j].id in seen && seen[past[j].id] == past[j].now)
  }

  /** The table refuses a request exactly when a standing one with its id lies less than the window before it. */
  lemma TableDecides(seen: Seen, past: seq<Attempt>, id: string, now: int, w: Window)
    requires Remembers(seen, past, w)
    ensures id in seen && now - seen[id] < w.width <==> Live(past, id, now, w)
  {
    if id in seen {
      assert Entry(past, id, seen[id], w);
    }
  }

  /** Against the full history the table errs exactly when the request repeats a taken one, and all taken ones that it
      repeats inside the window were forgotten; and then it errs towards taking it. */
  lemma TableErrsIff(seen: Seen, past: seq<Attempt>, id: string, now: int, w: Window)
    requires Remembers(seen, past, w) && id !in w.exempt
    ensures id in seen && now - seen[id] < w.width ==> Recent(past, id, now, w.width)
    ensures !(id in seen && now - seen[id] < w.width <==> Recent(past, id, now, w.width)) <==>
              && Recent(past, id, now, w.width)
              && forall i :: 0 <= i < |past| && past[i].taken && past[i].id == id && now - past[i].now < w.width ==>
                   Forgotten(past, i, |past|, w)
  {
    TableDecides(seen, past, id, now, w);
    assert past[..|past|] == past;
    forall i | 0 <= i < |past| && past[i].taken && past[i].id == id
      ensures Forgotten(past, i, |past|, w) <==> !Standing(past, i, w)
    {
      ForgottenIff(past, i, |past|, w);
    }
    if i :| Standing(past, i, w) && past[i].id == id && now - past[i].now < w.width {
      assert Live(past, id, now, w);
    }
  }

  lemma LongerFaithful(past: seq<Attempt>, a: Attempt, w: Window)
    requires Faithful(past, w) && Decided(past, a, w)
    ensures Faithful(past + [a], w)
  {
    var longer := past + [a];
    forall i | 0 <= i < |longer| ensures Decided(longer[..i], longer[i], w) {
      if i < |past| {
        assert longer[i] == past[i] && longer[..i] == past[..i];
      } else {
        assert longer[..i] == past;
      }
    }
  }

  /** One more request: what stood before stands unless it is pruned, and a taken one stands. */
  lemma StandingNext(past: seq<Attempt>, a: Attempt, j: int, w: Window)
    requires w.width > 0
    ensures Standing(past + [a], j, w) <==>
              if j == |past| then Enters(a, w)
              else Standing(past, j, w) && (Prunes(a, w) ==> a.now - past[j].now < w.width)
  {
    var longer := past + [a];
    assert longer[|past|] == a;
    assert forall k :: 0 <= k < |past| ==> longer[k] == past[k];
    if 0 <= j < |past| && Standing(longer, j, w) {
      forall k | j < k < |past| && Prunes(past[k], w) ensures past[k].now - past[j].now < w.width {
        assert Prunes(longer[k], w);
      }
    }
  }

  /** The table after a decision. */
  function After(seen: Seen, a: Attempt, w: Window): Seen {
    var kept := if Prunes(a, w) then Young(seen, a.now, w.width) else seen;
    if Enters(a, w) then kept[a.id := a.now] else kept
  }

  lemma EntriesStand(seen: Seen, past: seq<Attempt>, a: Attempt, w: Window, id: string)
    requires w.width > 0 && Remembers(seen, past, w) && id in After(seen, a, w)
    ensures Entry(past + [a], id, After(seen, a, w)[id], w)
  {
    var longer, after := past + [a], After(seen, a, w);
    if Enters(a, w) && id == a.id {
      StandingNext(past, a, |past|, w);
      assert longer[|past|] == a;
    } else {
      assert Entry(past, id, seen[id], w);
      var j :| Standing(past, j, w) && past[j].id == id && past[j].now == seen[id];
      StandingNext(past, a, j, w);
      assert longer[j] == past[j];
    }
  }

  lemma StandingEntered(seen: Seen, past: seq<Attempt>, a: Attempt, w: Window, j: int)
    requires w.width > 0 && Remembers(seen, past, w) && Decided(past, a, w) && Standing(past + [a], j, w)
    ensures var e := (past + [a])[j]; e.id in After(seen, a, w) && After(seen, a, w)[e.id] == e.now
  {
    var longer := past + [a];
    StandingNext(past, a, j, w);
    if j == |past| {
      assert longer[j] == a;
    } else {
      assert longer[j] == past[j];
      assert Enters(a, w) && past[j].id == a.id ==> Live(past, a.id, a.now, w);
    }
  }

  /** After a decision the table holds exactly the standing requests again, in whatever order the times come. */
  lemma DecisionRemembers(seen: Seen, past: seq<Attempt>, a: Attempt, w: Window)
    requires w.width > 0 && Remembers(seen, past, w)
    requires a.taken <==> a.id in w.exempt || !(a.id in seen && a.now - seen[a.id] < w.width)
    ensures Decided(past, a, w) && Remembers(After(seen, a, w), past + [a], w)
  {
    TableDecides(seen, past, a.id, a.now, w);
    LongerFaithful(past, a, w);
    forall id | id in After(seen, a, w) ensures Entry(past + [a], id, After(seen, a, w)[id], w) {
      EntriesStand(seen, past, a, w, id);
    }
    var longer := past + [a];
    forall j | Standing(longer, j, w)
      ensures longer[j].id in After(seen, a, w) && After(seen, a, w)[longer[j].id] == longer[j].now
    {
      StandingEntered(seen, past, a, w, j);
    }
  }

  /** The order of times matters: an id forgotten when a later request pruned the table passes again at an earlier
      time. */
  lemma OvertakenPasses(a: string, b: string, w: Window, past: seq<Attempt>)
    requires w.width > 0 && a != b && a !in w.exempt && b !in w.exempt
    requires past == [Attempt(a, 0, true, false), Attempt(b, w.width, true, false),
             Attempt(a, w.width - 1, true, false)]
    ensures Faithful(past, w) && past[0].id == past[2].id && past[2].now - past[0].now < w.width
  {
    var one, two := past[..1], past[..2];
    assert past[..0] == [] && one == [past[0]] && two == [past[0], past[1]];
    assert !Live(past[..0], a, 0, w) && !Live(one, b, w.width, w);
    assert !Live(two, a, w.width - 1, w) by {
      assert Prunes(two[1], w) && two[1].now - two[0].now >= w.width;
    }
    forall i | 0 <= i < |past| ensures Decided(past[..i], past[i], w) {
      assert i == 0 || i == 1 || i == 2;
    }
  }

  /** What the queue got, in order. */
  function Queued(past: seq<Attempt>): seq<string> {
    if past == [] then []
    else
      var a := past[|past| - 1];
      Queued(past[..|past| - 1]) + if a.queued then [a.id] else []
  }

  lemma QueuedGrows(past: seq<Attempt>, a: Attempt)
    ensures Queued(past + [a]) == Queued(past) + if a.queued then [a.id] else []
  {
    assert (past + [a])[..|past|] == past;
  }

  const EVENTS := Window(EVENT_DEDUPE_TTL, {""}, false)
  const CLAIMS := Window(MAX_CLOCK_SKEW + 1, {}, true)

  /** Ten minutes for events, one minute inclusive for nonces, in nanoseconds. */
  lemma WindowsLast(past: seq<Attempt>, id: string, now: int, j: nat)
    requires j < |past| && past[j].taken && past[j].id == id && past[j].now <= now
    requires forall k :: j < k < |past| ==> past[k].now <= now
    ensures id != "" && now - past[j].now < 600_000_000_000 ==> Live(past, id, now, EVENTS)
    ensures now - past[j].now <= 60_000_000_000 ==> Live(past, id, now, CLAIMS)
  {
    assert id != "" && now - past[j].now < 600_000_000_000 ==> Standing(past, j, EVENTS);
    assert now - past[j].now <= 60_000_000_000 ==> Standing(past, j, CLAIMS);
  }

  lemma HeadMoves(delivered: seq<string>, queue: seq<string>)
    requires queue != []
    ensures delivered + queue == delivered + [queue[0]] + queue[1..]
  {
  }

  class Dispatcher {
    var seen: Seen
    var queue: seq<string>
    const capacity: nat
    ghost var history: seq<Attempt>
    ghost var delivered: seq<string>

    ghost predicate Valid()
      reads this
    {
      && Remembers(seen, history, EVENTS)
      && (forall i :: 0 <= i < |history| && history[i].queued ==> history[i].taken)
      && delivered + queue == Queued(history)
      && |queue| <= capacity
    }

    constructor (capacity: nat)
      ensures Valid() && history == [] && this.capacity == capacity
    {
      this.capacity := capacity;
      seen, queue, history, delivered := map[], [], [], [];
    }

    /** The loop over the map deletes what has left the window. */
    method Prune(now: int)
      modifies this`seen
      ensures seen == Young(old(seen), now, EVENT_DEDUPE_TTL)
    {
      var todo := seen.Keys;
      while todo != {}
        invariant todo <= old(seen).Keys && seen.Keys <= old(seen).Keys
        invariant forall id :: id in old(seen) ==>
                    (id in seen <==> id in todo || now - old(seen)[id] < EVENT_DEDUPE_TTL)
        invariant forall id :: id in seen ==> seen[id] == old(seen)[id]
        decreases todo
      {
        var id := Pick(todo);
        todo := todo - {id};
        if now - seen[id] >= EVENT_DEDUPE_TTL {
          seen := seen - {id};
        }
      }
      assert seen == Young(old(seen), now, EVENT_DEDUPE_TTL);
    }

    method MarkEventSeen(eventID: string, now: int) returns (ok: bool)
      modifies this`seen
      ensures ok <==> eventID == "" || !(eventID in old(seen) && now - old(seen)[eventID] < EVENT_DEDUPE_TTL)
      ensures seen == if ok && eventID != "" then Young(old(seen), now, EVENT_DEDUPE_TTL)[eventID := now] else old(seen)
    {
      if eventID == "" { return true; }
      if eventID in seen && now - seen[eventID] < EVENT_DEDUPE_TTL { return false; }
      Prune(now);
      seen := seen[eventID := now];
      return true;
    }

    /** The decision, entered in the full history. */
    method Judge(eventID: string, now: int, ghost room: bool) returns (ok: bool)
      requires Remembers(seen, history, EVENTS)
      modifies this`seen, this`history
      ensures Remembers(seen, history, EVENTS)
      ensures history == old(history) + [Attempt(eventID, now, ok, ok && room)]
      ensures Decided(old(history), Attempt(eventID, now, ok, ok && room), EVENTS)
      ensures ok && eventID != "" ==> forall id :: id in seen ==> now - seen[id] < 600_000_000_000
    {
      ghost var before := seen;
      ok := MarkEventSeen(eventID, now);
      ghost var a := Attempt(eventID, now, ok, ok && room);
      DecisionRemembers(before, history, a, EVENTS);
      history := history + [a];
    }

    /** For any times an event is refused exactly when one with its id was taken less than ten minutes before, whether
        or not that one found room on the queue, and no event taken since then came ten minutes or more after that one;
        after a taken event no entry is older than the window. */
    method Publish(eventID: string, now: int)
      requires Valid()
      modifies this
      ensures Valid() && delivered == old(delivered)
      ensures |history| == |old(history)| + 1 && history[..|old(history)|] == old(history)
      ensures var a := history[|old(history)|];
              && a.id == eventID && a.now == now
              && (a.taken <==> eventID == "" || !Live(old(history), eventID, now, EVENTS))
              && (a.queued <==> a.taken && |old(queue)| < capacity)
              && queue == (if a.queued then old(queue) + [eventID] else old(queue))
              && (a.taken && eventID != "" ==> forall id :: id in seen ==> now - seen[id] < 600_000_000_000)
    {
      var room := |queue| < capacity;
      var ok := Judge(eventID, now, room);
      if ok && room {
        queue := queue + [eventID];
      }
      QueuedGrows(old(history), Attempt(eventID, now, ok, ok && room));
    }

    method Deliver() returns (eventID: string)
      requires Valid() && |queue| > 0
      modifies this`queue, this`delivered
      ensures Valid() && [eventID] + queue == old(queue) && delivered == old(delivered) + [eventID]
    {
      HeadMoves(delivered, queue);
      eventID := queue[0];
      queue := queue[1..];
      delivered := delivered + [eventID];
    }
  }

  class Nonces {
    var values: Seen
    ghost var history: seq<Attempt>

    /** The bound is inclusive: in whole nanoseconds, less than one minute and a nanosecond. */
    ghost predicate Valid()
      reads this
    {
      Remembers(values, history, CLAIMS)
    }

    constructor ()
      ensures Valid() && history == []
    {
      values, history := map[], [];
    }

    method Prune(now: int)
      modifies this`values
      ensures values == Young(old(values), now, MAX_CLOCK_SKEW + 1)
    {
      var todo := values.Keys;
      while todo != {}
        invariant todo <= old(values).Keys && values.Keys <= old(values).Keys
        invariant forall id :: id in old(values) ==>
                    (id in values <==> id in todo || now - old(values)[id] <= MAX_CLOCK_SKEW)
        invariant forall id :: id in values ==> values[id] == old(values)[id]
        decreases todo
      {
        var id := Pick(todo);
        todo := todo - {id};
        if now - values[id] > MAX_CLOCK_SKEW {
          values := values - {id};
        }
      }
      assert values == Young(old(values), now, MAX_CLOCK_SKEW + 1);
    }

    /** For any times a nonce is refused exactly when it was claimed at most one minute before and no claim since then,
        accepted or refused, came more than a minute after that one. */
    method ClaimNonce(nonce: string, now: int) returns (ok: bool)
      requires Valid()
      modifies this
      ensures Valid() && history == old(history) + [Attempt(nonce, now, ok, false)]
      ensures ok <==> !Live(old(history), nonce, now, CLAIMS)
      ensures forall id :: id in values ==> now - values[id] <= 60_000_000_000
    {
      ghost var before := values;
      Prune(now);
      ok := nonce !in values;
      if ok {
        values := values[nonce := now];
      }
      ghost var a := Attempt(nonce, now, ok, false);
      DecisionRemembers(before, history, a, CLAIMS);
      history := history + [a];
    }
  }
}
