/** Live call state: the channel cache with its counters and the per-user calls, driven by channel
    events and by reconciliation.  Each handler holds one lock, so each is one step. */
module LiveCalls {
  import opened CallClock
  import opened CallSummary
  import opened Options

  datatype Channel = Channel(
    uuid: string, direction: string, createdEpoch: Option<int>, name: string, presenceId: string, callstate: string)

  type Directory = map<string, int>            // presence to user id; serial ids start at 1
  type ChannelMap = map<string, Channel>
  type CallMap = map<string, Call>
  type UserCalls = map<int, CallMap>           // cached users and their active calls

  const ACTIVE := "ACTIVE"

  function Resolve(dir: Directory, presenceId: string, name: string): Option<int> {
    var key := if presenceId == "" then name else presenceId;
    if key in dir then Some(dir[key]) else None
  }

  function UserOf(dir: Directory, c: Channel): Option<int> {
    Resolve(dir, c.presenceId, c.name)
  }

  function CallOf(c: Channel, offset: int): Call {
    Call(c.uuid, Normalized(c.createdEpoch, offset), c.direction, c.callstate == ACTIVE)
  }

  function CallsOf(calls: UserCalls, user: int): CallMap {
    if user in calls then calls[user] else map[]
  }

  datatype State = State(channels: ChannelMap, calls: UserCalls, offset: int)

  // ----- the steps as functions -----

  function SetCall(calls: UserCalls, user: int, call: Call, active: bool): UserCalls {
    if user == 0 || call.uuid == "" then calls
    else calls[user := if active then CallsOf(calls, user)[call.uuid := call] else CallsOf(calls, user) - {call.uuid}]
  }

  /** `delay` is now minus the event's time, absent when the event carries no time. */
  function OffsetAfter(offset: int, delay: Option<int>): int {
    if delay.None? then offset else if delay.value > 60 || delay.value < -60 then delay.value else 0
  }

  datatype Event =
    | Create(channel: Channel, delay: Option<int>)
    | Answer(uuid: string)
    | Destroy(uuid: string, otherLeg: string, presenceId: string, name: string)
    | Reconcile(snapshot: seq<Channel>)

  function DestroyedChannel(channels: ChannelMap, uuid: string, otherLeg: string): Option<Channel> {
    if uuid in channels then Some(channels[uuid])
    else if otherLeg != "" && otherLeg in channels then Some(channels[otherLeg])
    else None
  }

  /** The channels of a snapshot; a later entry replaces an earlier one. */
  function ChannelsIn(snapshot: seq<Channel>): ChannelMap {
    if snapshot == [] then map[]
    else
      var front, last := ChannelsIn(snapshot[..|snapshot| - 1]), snapshot[|snapshot| - 1];
      if last.uuid == "" then front else front[last.uuid := last]
  }

  /** The calls appended to one user's list. */
  function CallsFor(dir: Directory, snapshot: seq<Channel>, offset: int, user: int): seq<Call> {
    if snapshot == [] then []
    else
      var front, last := CallsFor(dir, snapshot[..|snapshot| - 1], offset, user), snapshot[|snapshot| - 1];
      if UserOf(dir, last) == Some(user) then front + [CallOf(last, offset)] else front
  }

  function FromList(calls: seq<Call>): CallMap {
    if calls == [] then map[]
    else
      var front, last := FromList(calls[..|calls| - 1]), calls[|calls| - 1];
      if last.uuid == "" then front else front[last.uuid := last]
  }

  function UsersIn(dir: Directory, snapshot: seq<Channel>): set<int> {
    if snapshot == [] then {}
    else
      var front, last := UsersIn(dir, snapshot[..|snapshot| - 1]), UserOf(dir, snapshot[|snapshot| - 1]);
      if last.Some? then front + {last.value} else front
  }

  function ReplaceCalls(dir: Directory, calls: UserCalls, snapshot: seq<Channel>, offset: int): UserCalls {
    map u | u in calls.Keys + UsersIn(dir, snapshot) :: FromList(CallsFor(dir, snapshot, offset, u))
  }

  function Reconciled(dir: Directory, s: State, snapshot: seq<Channel>): State {
    State(ChannelsIn(snapshot), ReplaceCalls(dir, s.calls, snapshot, s.offset), s.offset)
  }

  function Step(dir: Directory, s: State, e: Event): State {
    match e
    case Create(c, delay) =>
      var offset := OffsetAfter(s.offset, delay);
      var channels := if c.uuid == "" then s.channels else s.channels[c.uuid := c];
      var user := UserOf(dir, c);
      State(channels, if user.None? then s.calls else SetCall(s.calls, user.value, CallOf(c, offset), true), offset)
    case Answer(uuid) =>
      if uuid !in s.channels then s
      else
        var c := s.channels[uuid].(callstate := ACTIVE);
        var user := UserOf(dir, c);
        State(s.channels[uuid := c],
              if user.None? then s.calls else SetCall(s.calls, user.value, CallOf(c, s.offset), true), s.offset)
    case Destroy(uuid, otherLeg, presenceId, name) =>
      var found := DestroyedChannel(s.channels, uuid, otherLeg);
      var user := if found.Some? then UserOf(dir, found.value) else Resolve(dir, presenceId, name);
      var gone := if found.Some? then found.value.uuid else if uuid == "" then otherLeg else uuid;
      var channels := if found.Some? then s.channels - {gone} else s.channels;
      State(channels, if user.None? then s.calls
          else SetCall(s.calls, user.value, Call(gone, 0, "", false), false), s.offset)
    case Reconcile(snapshot) => Reconciled(dir, s, snapshot)
  }

  // ----- the invariant -----

  ghost predicate Serial(dir: Directory) {
    forall k :: k in dir ==> dir[k] > 0
  }

  /** The call `id` is active for user `u` exactly when its channel is cached and resolves to `u`, and it says what the
      channel says. */
  predicate Right(dir: Directory, s: State, u: int, id: string) {
    && (id in CallsOf(s.calls, u) <==> id in s.channels && UserOf(dir, s.channels[id]) == Some(u))
    && (id in CallsOf(s.calls, u) && id in s.channels ==>
          var call := CallsOf(s.calls, u)[id];
          call.uuid == id && call.talking == (s.channels[id].callstate == ACTIVE) &&
              call.direction == s.channels[id].direction)
  }

  ghost predicate Consistent(dir: Directory, s: State) {
    && (forall id :: id in s.channels ==> id != "" && s.channels[id].uuid == id)
    && (forall u, id :: Right(dir, s, u, id))
  }

  /** What a caller can see before the step: nobody else holds the call that a create event announces. */
  ghost predicate Harmless(dir: Directory, s: State, e: Event) {
    match e
    case Create(c, _) =>
      c.uuid in s.channels && UserOf(dir, s.channels[c.uuid]).Some? ==>
          UserOf(dir, s.channels[c.uuid]) == UserOf(dir, c)
    case Reconcile(snapshot) => Coherent(dir, snapshot)
    case _ => true
  }

  /** Every entry that resolves to a user resolves to the same one as the last entry of its uuid. */
  ghost predicate Coherent(dir: Directory, snapshot: seq<Channel>) {
    forall k :: 0 <= k < |snapshot| && snapshot[k].uuid != "" && UserOf(dir, snapshot[k]).Some? ==>
      snapshot[k].uuid in ChannelsIn(snapshot) &&
          UserOf(dir, ChannelsIn(snapshot)[snapshot[k].uuid]) == UserOf(dir, snapshot[k])
  }

  lemma {:induction false} ChannelsInHas(snapshot: seq<Channel>)
    ensures forall id :: id in ChannelsIn(snapshot) <==> id != "" && exists k ::
              0 <= k < |snapshot| && snapshot[k].uuid == id
    ensures forall id :: id in ChannelsIn(snapshot) ==>
              ChannelsIn(snapshot)[id].uuid == id && ChannelsIn(snapshot)[id] in snapshot
  {
    if snapshot != [] {
      var front, last := snapshot[..|snapshot| - 1], snapshot[|snapshot| - 1];
      ChannelsInHas(front);
      assert snapshot == front + [last];
      forall id | id in ChannelsIn(snapshot) ensures exists k :: 0 <= k < |snapshot| && snapshot[k].uuid == id {
        if id == last.uuid { assert snapshot[|snapshot| - 1].uuid == id; }
        else {
          assert id in ChannelsIn(front);
          var k :| 0 <= k < |front| && front[k].uuid == id;
          assert snapshot[k].uuid == id;
        }
      }
      forall id | id != "" && exists k :: 0 <= k < |snapshot| && snapshot[k].uuid == id
        ensures id in ChannelsIn(snapshot)
      {
        var k :| 0 <= k < |snapshot| && snapshot[k].uuid == id;
        if k < |front| { assert front[k].uuid == id; }
      }
    }
  }

  lemma RebuiltStep(dir: Directory, snapshot: seq<Channel>, offset: int, user: int)
    requires snapshot != []
    ensures var front, last := FromList(CallsFor(dir, snapshot[..|snapshot| - 1], offset, user)),
            snapshot[|snapshot| - 1];
            FromList(CallsFor(dir, snapshot, offset, user)) ==
            if UserOf(dir, last) == Some(user) && last.uuid != "" then front[last.uuid := CallOf(last, offset)]
                else front
  {
    var front, last := snapshot[..|snapshot| - 1], snapshot[|snapshot| - 1];
    var list := CallsFor(dir, snapshot, offset, user);
    if UserOf(dir, last) == Some(user) {
      assert list[..|list| - 1] == CallsFor(dir, front, offset, user);
    }
  }

  ghost predicate Mentions(dir: Directory, snapshot: seq<Channel>, user: int, id: string) {
    exists k :: 0 <= k < |snapshot| && snapshot[k].uuid == id && UserOf(dir, snapshot[k]) == Some(user)
  }

  lemma MentionsStep(dir: Directory, snapshot: seq<Channel>, user: int, id: string)
    requires snapshot != []
    ensures var front, last := snapshot[..|snapshot| - 1], snapshot[|snapshot| - 1];
            Mentions(dir, snapshot, user, id) <==>
            Mentions(dir, front, user, id) || (last.uuid == id && UserOf(dir, last) == Some(user))
  {
    var front, last := snapshot[..|snapshot| - 1], snapshot[|snapshot| - 1];
    if Mentions(dir, front, user, id) {
      var k :| 0 <= k < |front| && front[k].uuid == id && UserOf(dir, front[k]) == Some(user);
      assert snapshot[k] == front[k];
    }
    if Mentions(dir, snapshot, user, id) {
      var k :| 0 <= k < |snapshot| && snapshot[k].uuid == id && UserOf(dir, snapshot[k]) == Some(user);
      if k < |front| { assert front[k] == snapshot[k]; }
    }
  }

  /** One user's rebuilt calls: which there are, and that a call agrees with the surviving channel when that one is the
      user's. */
  lemma {:induction false} RebuiltCalls(dir: Directory, snapshot: seq<Channel>, offset: int, user: int, id: string)
    ensures var calls := FromList(CallsFor(dir, snapshot, offset, user));
            && (id in calls <==> id != "" && Mentions(dir, snapshot, user, id))
            && (id in ChannelsIn(snapshot) && UserOf(dir, ChannelsIn(snapshot)[id]) == Some(user) ==>
                  id in calls && calls[id] == CallOf(ChannelsIn(snapshot)[id], offset))
    ensures Mentions(dir, snapshot, user, id) ==> user in UsersIn(dir, snapshot)
  {
    if snapshot != [] {
      RebuiltCalls(dir, snapshot[..|snapshot| - 1], offset, user, id);
      RebuiltStep(dir, snapshot, offset, user);
      MentionsStep(dir, snapshot, user, id);
    }
  }

  lemma AfterReconcile(dir: Directory, s: State, snapshot: seq<Channel>, u: int)
    ensures CallsOf(Step(dir, s, Reconcile(snapshot)).calls, u) == FromList(CallsFor(dir, snapshot, s.offset, u))
  {
    if u !in s.calls.Keys + UsersIn(dir, snapshot) {
      forall id ensures id !in FromList(CallsFor(dir, snapshot, s.offset, u)) {
        RebuiltCalls(dir, snapshot, s.offset, u, id);
      }
    }
  }

  /** A reconciliation ends consistent exactly when its snapshot is coherent, whatever the state was before. */
  lemma ReconcileConsistentIff(dir: Directory, s: State, snapshot: seq<Channel>)
    ensures Consistent(dir, Step(dir, s, Reconcile(snapshot))) <==> Coherent(dir, snapshot)
  {
    var t := Step(dir, s, Reconcile(snapshot));
    ChannelsInHas(snapshot);
    if Coherent(dir, snapshot) {
      forall u, id ensures Right(dir, t, u, id) {
        RebuiltCalls(dir, snapshot, s.offset, u, id);
        AfterReconcile(dir, s, snapshot, u);
      }
    }
    if Consistent(dir, t) {
      forall k | 0 <= k < |snapshot| && snapshot[k].uuid != "" && UserOf(dir, snapshot[k]).Some?
        ensures snapshot[k].uuid in ChannelsIn(snapshot)
        ensures UserOf(dir, ChannelsIn(snapshot)[snapshot[k].uuid]) == UserOf(dir, snapshot[k])
      {
        var u, id := UserOf(dir, snapshot[k]).value, snapshot[k].uuid;
        RebuiltCalls(dir, snapshot, s.offset, u, id);
        AfterReconcile(dir, s, snapshot, u);
        assert Right(dir, t, u, id);
      }
    }
  }

  /** Some channel of the snapshot that becomes a user's call carries a creation time. */
  ghost predicate Dated(dir: Directory, snapshot: seq<Channel>) {
    exists u, id :: id in Rebuilt(dir, snapshot, 0, u) && Rebuilt(dir, snapshot, 0, u)[id].createdAt != 0
  }

  function Rebuilt(dir: Directory, snapshot: seq<Channel>, offset: int, user: int): CallMap {
    FromList(CallsFor(dir, snapshot, offset, user))
  }

  /** What the clock offset does to a call: it shifts a creation time that there is, and nothing else. */
  function Shifted(call: Call, offset: int): Call {
    if call.createdAt == 0 then call else call.(createdAt := call.createdAt + offset)
  }

  lemma {:induction false} RebuiltShifted(dir: Directory, snapshot: seq<Channel>, offset: int, user: int)
    ensures Rebuilt(dir, snapshot, offset, user) ==
            map id | id in Rebuilt(dir, snapshot, 0, user) :: Shifted(Rebuilt(dir, snapshot, 0, user)[id], offset)
  {
    if snapshot != [] {
      RebuiltShifted(dir, snapshot[..|snapshot| - 1], offset, user);
      RebuiltStep(dir, snapshot, offset, user);
      RebuiltStep(dir, snapshot, 0, user);
    }
  }

  /** Reconciliation forgets history but for the clock offset: the channels depend on the snapshot alone, and every
      user's calls do so exactly when the offsets agree or no call of the snapshot has a creation time. */
  lemma ReconcileForgetsIff(dir: Directory, s: State, t: State, snapshot: seq<Channel>)
    ensures var s', t' := Step(dir, s, Reconcile(snapshot)), Step(dir, t, Reconcile(snapshot));
            && s'.channels == t'.channels
            && ((forall u :: CallsOf(s'.calls, u) == CallsOf(t'.calls, u)) <==>
                s.offset == t.offset || !Dated(dir, snapshot))
  {
    var s', t' := Step(dir, s, Reconcile(snapshot)), Step(dir, t, Reconcile(snapshot));
    forall u
      ensures CallsOf(s'.calls, u) == Rebuilt(dir, snapshot, s.offset, u)
      ensures CallsOf(t'.calls, u) == Rebuilt(dir, snapshot, t.offset, u)
    {
      AfterReconcile(dir, s, snapshot, u);
      AfterReconcile(dir, t, snapshot, u);
    }
    if s.offset == t.offset || !Dated(dir, snapshot) {
      forall u ensures Rebuilt(dir, snapshot, s.offset, u) == Rebuilt(dir, snapshot, t.offset, u) {
        RebuiltShifted(dir, snapshot, s.offset, u);
        RebuiltShifted(dir, snapshot, t.offset, u);
      }
    } else {
      var u, id :| id in Rebuilt(dir, snapshot, 0, u) && Rebuilt(dir, snapshot, 0, u)[id].createdAt != 0;
      RebuiltShifted(dir, snapshot, s.offset, u);
      RebuiltShifted(dir, snapshot, t.offset, u);
      assert Rebuilt(dir, snapshot, s.offset, u)[id] != Rebuilt(dir, snapshot, t.offset, u)[id];
    }
  }

  /** Whatever the offsets, which calls there are, their direction and whether they talk depend on the snapshot
      alone. */
  lemma ReconcileKeepsCalls(dir: Directory, s: State, t: State, snapshot: seq<Channel>, u: int, id: string)
    ensures var calls, calls' := CallsOf(Step(dir, s, Reconcile(snapshot)).calls, u),
            CallsOf(Step(dir, t, Reconcile(snapshot)).calls, u);
            && (id in calls <==> id in calls')
            && (id in calls ==> calls[id] == calls'[id].(createdAt := calls[id].createdAt))
  {
    AfterReconcile(dir, s, snapshot, u);
    AfterReconcile(dir, t, snapshot, u);
    RebuiltShifted(dir, snapshot, s.offset, u);
    RebuiltShifted(dir, snapshot, t.offset, u);
  }

  /** A create event keeps the state consistent exactly when no other user holds its call. */
  lemma CreateConsistentIff(dir: Directory, s: State, c: Channel, delay: Option<int>)
    requires Serial(dir) && Consistent(dir, s)
    ensures Consistent(dir, Step(dir, s, Create(c, delay))) <==> Harmless(dir, s, Create(c, delay))
  {
    var t := Step(dir, s, Create(c, delay));
    if c.uuid in s.channels && UserOf(dir, s.channels[c.uuid]).Some? &&
        UserOf(dir, s.channels[c.uuid]) != UserOf(dir, c) {
      var u := UserOf(dir, s.channels[c.uuid]).value;
      assert Right(dir, s, u, c.uuid);
      assert c.uuid in CallsOf(t.calls, u);
      assert !Right(dir, t, u, c.uuid);
    } else {
      forall u, id ensures Right(dir, t, u, id) {
        assert Right(dir, s, u, id);
      }
    }
  }

  lemma AnswerConsistent(dir: Directory, s: State, uuid: string)
    requires Serial(dir) && Consistent(dir, s)
    ensures Consistent(dir, Step(dir, s, Answer(uuid)))
  {
    var t := Step(dir, s, Answer(uuid));
    if uuid in s.channels {
      assert UserOf(dir, t.channels[uuid]) == UserOf(dir, s.channels[uuid]);
      forall u, id ensures Right(dir, t, u, id) {
        assert Right(dir, s, u, id);
      }
    }
  }

  /** Also when the other leg is removed instead, and when neither leg is known. */
  lemma DestroyConsistent(dir: Directory, s: State, uuid: string, otherLeg: string, presenceId: string, name: string)
    requires Serial(dir) && Consistent(dir, s)
    ensures Consistent(dir, Step(dir, s, Destroy(uuid, otherLeg, presenceId, name)))
  {
    var t := Step(dir, s, Destroy(uuid, otherLeg, presenceId, name));
    forall u, id ensures Right(dir, t, u, id) {
      assert Right(dir, s, u, id);
    }
  }

  /** Every step of a consistent state keeps it consistent exactly when the event is harmless. */
  lemma StepConsistentIff(dir: Directory, s: State, e: Event)
    requires Serial(dir) && Consistent(dir, s)
    ensures Consistent(dir, Step(dir, s, e)) <==> Harmless(dir, s, e)
  {
    var t := Step(dir, s, e);
    match e
    case Create(c, delay) =>
      CreateConsistentIff(dir, s, c, delay);
    case Answer(uuid) =>
      AnswerConsistent(dir, s, uuid);
    case Destroy(uuid, otherLeg, presenceId, name) =>
      DestroyConsistent(dir, s, uuid, otherLeg, presenceId, name);
    case Reconcile(snapshot) =>
      ReconcileConsistentIff(dir, s, snapshot);
  }

  // ----- every run -----

  function RunEvents(dir: Directory, s: State, events: seq<Event>): State {
    if events == [] then s else Step(dir, RunEvents(dir, s, events[..|events| - 1]), events[|events| - 1])
  }

  const START := State(map[], map[], 0)

  /** Every event concerns calls that always belong to the same user. */
  ghost predicate Owned(dir: Directory, owner: string -> Option<int>, e: Event) {
    match e
    case Create(c, _) => UserOf(dir, c) == owner(c.uuid)
    case Reconcile(snapshot) => forall k :: 0 <= k < |snapshot| ==> UserOf(dir, snapshot[k]) == owner(snapshot[k].uuid)
    case _ => true
  }

  lemma OwnedStep(dir: Directory, owner: string -> Option<int>, s: State, e: Event)
    requires Serial(dir) && Consistent(dir, s) && Owned(dir, owner, e)
    requires forall id :: id in s.channels ==> UserOf(dir, s.channels[id]) == owner(id)
    ensures Harmless(dir, s, e)
    ensures var t := Step(dir, s, e); forall id :: id in t.channels ==> UserOf(dir, t.channels[id]) == owner(id)
  {
    if e.Reconcile? {
      ChannelsInHas(e.snapshot);
    }
  }

  /** In every reachable state of every run in which a call keeps its user, channels and user calls agree. */
  lemma {:induction false} EveryRunConsistent(dir: Directory, owner: string -> Option<int>, events: seq<Event>)
    requires Serial(dir)
    requires forall k :: 0 <= k < |events| ==> Owned(dir, owner, events[k])
    ensures Consistent(dir, RunEvents(dir, START, events))
    ensures var s := RunEvents(dir, START, events);
            forall id :: id in s.channels ==> UserOf(dir, s.channels[id]) == owner(id)
  {
    if events == [] {
      assert RunEvents(dir, START, events) == START;
    } else {
      var front, last := events[..|events| - 1], events[|events| - 1];
      EveryRunConsistent(dir, owner, front);
      OwnedStep(dir, owner, RunEvents(dir, START, front), last);
      StepConsistentIff(dir, RunEvents(dir, START, front), last);
    }
  }
}
