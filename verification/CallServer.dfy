/** The two caches as objects and the handlers that change them, proved against the steps of LiveCalls. */
module CallServer {
  import opened AnyOrder
  import opened CallClock
  import opened CallSummary
  import opened LiveCalls
  import opened LiveEffects
  import opened Options

  function Answered(byUuid: ChannelMap): (ids: set<string>)
    ensures forall id :: id in ids <==> id in byUuid && byUuid[id].callstate == ACTIVE
  {
    set id | id in byUuid && byUuid[id].callstate == ACTIVE
  }

  method CountAnswered(byUuid: ChannelMap) returns (answered: nat)
    ensures answered == |Answered(byUuid)|
  {
    answered := 0;
    ghost var seen := {};
    var todo := byUuid.Keys;
    while todo != {}
      invariant todo <= byUuid.Keys && answered == |seen|
      invariant forall id :: id in seen <==> id in byUuid && id !in todo && byUuid[id].callstate == ACTIVE
      decreases todo
    {
      var id := Pick(todo);
      todo := todo - {id};
      if byUuid[id].callstate == ACTIVE {
        answered := answered + 1;
        seen := seen + {id};
      }
    }
    assert seen == Answered(byUuid);
  }

  class Channels {
    var byUuid: ChannelMap
    var total: nat
    var answered: nat

    /** The counters are a recount of the map, and every key is its channel's uuid. */
    ghost predicate Valid()
      reads this
    {
      && (forall id :: id in byUuid ==> id != "" && byUuid[id].uuid == id)
      && total == |byUuid|
      && answered == |Answered(byUuid)|
    }

    constructor ()
      ensures Valid() && byUuid == map[]
    {
      byUuid, total, answered := map[], 0, 0;
    }

    method RefreshCounters()
      modifies this`total, this`answered
      ensures total == |byUuid| && answered == |Answered(byUuid)|
    {
      total := |byUuid|;
      answered := CountAnswered(byUuid);
    }

    method Set(value: Channel)
      requires Valid()
      modifies this
      ensures Valid()
      ensures byUuid == if value.uuid == "" then old(byUuid) else old(byUuid)[value.uuid := value]
    {
      if value.uuid == "" { return; }
      byUuid := byUuid[value.uuid := value];
      RefreshCounters();
    }

    method MarkAnswered(uuid: string) returns (copy: Option<Channel>)
      requires Valid()
      modifies this
      ensures Valid()
      ensures uuid !in old(byUuid) ==> copy == None && byUuid == old(byUuid)
      ensures uuid in old(byUuid) ==>
                copy == Some(old(byUuid)[uuid].(callstate := ACTIVE)) && byUuid == old(byUuid)[uuid := copy.value]
    {
      if uuid !in byUuid { return None; }
      byUuid := byUuid[uuid := byUuid[uuid].(callstate := ACTIVE)];
      RefreshCounters();
      copy := Some(byUuid[uuid]);
    }

    method RemoveByUUID(uuid: string, otherLeg: string) returns (copy: Option<Channel>)
      requires Valid()
      modifies this
      ensures Valid()
      ensures copy == DestroyedChannel(old(byUuid), uuid, otherLeg)
      ensures byUuid == if copy.Some? then old(byUuid) - {copy.value.uuid} else old(byUuid)
    {
      var key := uuid;
      if uuid !in byUuid && otherLeg != "" { key := otherLeg; }
      if key !in byUuid { return None; }
      copy := Some(byUuid[key]);
      byUuid := byUuid - {copy.value.uuid};
      RefreshCounters();
    }

    method Replace(values: seq<Channel>)
      modifies this
      ensures Valid()
      ensures byUuid == ChannelsIn(values)
    {
      var next: ChannelMap := map[];
      for i := 0 to |values|
        invariant next == ChannelsIn(values[..i])
        invariant forall id :: id in next ==> id != "" && next[id].uuid == id
      {
        assert values[..i + 1][..i] == values[..i];
        if values[i].uuid != "" {
          next := next[values[i].uuid := values[i]];
        }
      }
      assert values[..|values|] == values;
      byUuid := next;
      RefreshCounters();
    }

    /** The recounting getter and the counters are two ways to the same numbers. */
    method GetLength() returns (length: nat, active: nat)
      requires Valid()
      ensures length == total && active == answered
    {
      length := |byUuid|;
      active := CountAnswered(byUuid);
    }
  }

  /** A cached user: the active calls and the summary derived from them. */
  datatype UserEntry = UserEntry(activeCalls: CallMap, inCall: bool, summary: Summary)

  ghost predicate Keyed(calls: CallMap) {
    forall id :: id in calls ==> calls[id].uuid == id
  }

  /** The summary is one that some iteration order of the map gives. */
  ghost predicate Fresh(e: UserEntry) {
    && Keyed(e.activeCalls)
    && (e.inCall <==> e.activeCalls != map[])
    && exists order :: Orders(order, e.activeCalls.Values) && e.summary == Fold(order)
  }

  /** `order` holds the calls that are not left to do, each once. */
  ghost predicate Visited(order: seq<Call>, calls: CallMap, todo: set<string>) {
    && (forall c :: c in order <==> c.uuid in calls && c.uuid !in todo && calls[c.uuid] == c)
    && (forall a, b :: 0 <= a < b < |order| ==> order[a] != order[b])
  }

  lemma VisitNext(order: seq<Call>, calls: CallMap, todo: set<string>, id: string)
    requires Keyed(calls) && Visited(order, calls, todo) && id in todo && id in calls
    ensures Visited(order + [calls[id]], calls, todo - {id})
    ensures Fold(order + [calls[id]]) == Visit(Fold(order), calls[id])
  {
    var longer := order + [calls[id]];
    assert longer[..|longer| - 1] == order;
    assert calls[id] !in order;
  }

  lemma AllVisited(order: seq<Call>, calls: CallMap, u: Summary)
    requires Keyed(calls) && Visited(order, calls, {}) && u == Fold(order)
    ensures Fresh(UserEntry(calls, |calls| > 0, u))
  {
    assert forall c :: c in calls.Values <==> c in order;
    assert Orders(order, calls.Values);
    assert |calls| > 0 <==> calls != map[];
  }

  method Refresh(calls: CallMap) returns (e: UserEntry)
    requires Keyed(calls)
    ensures e.activeCalls == calls && Fresh(e)
  {
    var u := EMPTY;
    ghost var order: seq<Call> := [];
    var todo := calls.Keys;
    while todo != {}
      invariant todo <= calls.Keys
      invariant u == Fold(order) && Visited(order, calls, todo)
      decreases todo
    {
      var id := Pick(todo);
      VisitNext(order, calls, todo, id);
      todo := todo - {id};
      u := Visit(u, calls[id]);
      order := order + [calls[id]];
    }
    AllVisited(order, calls, u);
    e := UserEntry(calls, |calls| > 0, u);
  }

  method Rebuild(userCalls: seq<Call>) returns (e: UserEntry)
    ensures e.activeCalls == FromList(userCalls) && Fresh(e)
  {
    var activeCalls: CallMap := map[];
    for k := 0 to |userCalls|
      invariant activeCalls == FromList(userCalls[..k]) && Keyed(activeCalls)
    {
      assert userCalls[..k + 1][..k] == userCalls[..k];
      var call := userCalls[k];
      if call.uuid != "" {
        activeCalls := activeCalls[call.uuid := call];
      }
    }
    assert userCalls[..|userCalls|] == userCalls;
    e := Refresh(activeCalls);
  }

  function CallsIn(byId: map<int, UserEntry>): UserCalls {
    map u | u in byId :: byId[u].activeCalls
  }

  lemma CallsWith(byId: map<int, UserEntry>, u: int, e: UserEntry)
    ensures CallsIn(byId[u := e]) == CallsIn(byId)[u := e.activeCalls]
  {
  }

  /** Every user but these is without calls. */
  ghost predicate EmptyBut(c: UserCalls, todo: set<int>) {
    forall u :: u in c && u !in todo ==> c[u] == map[]
  }

  lemma EmptyNext(c: UserCalls, todo: set<int>, u: int)
    requires EmptyBut(c, todo)
    ensures EmptyBut(c[u := FromList([])], todo - {u})
  {
  }

  /** Every user has the listed calls, or none when it is not listed or still to do. */
  ghost predicate ReplacedBut(c: UserCalls, calls: map<int, seq<Call>>, todo: set<int>) {
    forall u :: u in c ==> c[u] == if u in calls && u !in todo then FromList(calls[u]) else map[]
  }

  lemma NoneReplaced(c: UserCalls, calls: map<int, seq<Call>>)
    requires EmptyBut(c, {})
    ensures ReplacedBut(c, calls, calls.Keys)
  {
  }

  lemma ReplacedNext(c: UserCalls, calls: map<int, seq<Call>>, todo: set<int>, u: int)
    requires ReplacedBut(c, calls, todo) && u in todo && u in calls
    ensures ReplacedBut(c[u := FromList(calls[u])], calls, todo - {u})
  {
  }

  class UserCache {
    var byId: map<int, UserEntry>

    ghost predicate Valid()
      reads this
    {
      forall u :: u in byId ==> Fresh(byId[u])
    }

    function Calls(): (calls: UserCalls)
      reads this
      ensures calls.Keys == byId.Keys
    {
      CallsIn(byId)
    }

    constructor ()
      ensures Valid() && byId == map[]
    {
      byId := map[];
    }

    method SetCall(user: int, call: Call, active: bool)
      requires Valid()
      modifies this
      ensures Valid()
      ensures Calls() == LiveCalls.SetCall(old(Calls()), user, call, active)
    {
      if user == 0 || call.uuid == "" { return; }
      var activeCalls: CallMap := if user in byId then byId[user].activeCalls else map[];
      if active {
        activeCalls := activeCalls[call.uuid := call];
      } else {
        activeCalls := activeCalls - {call.uuid};
      }
      var e := Refresh(activeCalls);
      CallsWith(byId, user, e);
      byId := byId[user := e];
    }

    method ActiveCallUserIDs() returns (ids: set<int>)
      requires Valid()
      ensures ids <= byId.Keys && forall u :: u in ids <==> u in byId && byId[u].inCall
    {
      ids := {};
      var todo := byId.Keys;
      while todo != {}
        invariant todo <= byId.Keys
        invariant ids <= byId.Keys && forall u :: u in ids <==> u in byId && u !in todo && byId[u].inCall
        decreases todo
      {
        var u := Pick(todo);
        todo := todo - {u};
        assert Fresh(byId[u]);
        assert |byId[u].activeCalls| > 0 <==> byId[u].activeCalls != map[];
        if |byId[u].activeCalls| > 0 {
          ids := ids + {u};
        }
      }
    }

    /** One user's calls are set to these. */
    method SetCalls(u: int, userCalls: seq<Call>)
      requires Valid()
      modifies this
      ensures Valid()
      ensures Calls() == old(Calls())[u := FromList(userCalls)]
    {
      var e := Rebuild(userCalls);
      CallsWith(byId, u, e);
      byId := byId[u := e];
    }

    /** The first loop of ReplaceCalls. */
    method EmptyAll()
      requires Valid()
      modifies this
      ensures Valid() && Calls().Keys == old(Calls()).Keys
      ensures EmptyBut(Calls(), {})
    {
      var todo := byId.Keys;
      ghost var all := todo;
      while todo != {}
        invariant Valid() && Calls().Keys == all && todo <= all
        invariant EmptyBut(Calls(), todo)
        decreases todo
      {
        var u := Pick(todo);
        EmptyNext(Calls(), todo, u);
        todo := todo - {u};
        SetCalls(u, []);
      }
    }

    method ReplaceCalls(calls: map<int, seq<Call>>)
      requires Valid()
      modifies this
      ensures Valid()
      ensures Calls().Keys == old(Calls()).Keys + calls.Keys
      ensures ReplacedBut(Calls(), calls, {})
    {
      EmptyAll();
      NoneReplaced(Calls(), calls);
      var todo := calls.Keys;
      while todo != {}
        invariant Valid() && todo <= calls.Keys && Calls().Keys == old(Calls()).Keys + (calls.Keys - todo)
        invariant ReplacedBut(Calls(), calls, todo)
        decreases todo
      {
        var u := Pick(todo);
        ReplacedNext(Calls(), calls, todo, u);
        todo := todo - {u};
        SetCalls(u, calls[u]);
      }
    }

    method Entries(ids: set<int>) returns (entries: map<int, UserEntry>)
      requires ids <= Calls().Keys
      ensures entries.Keys == ids && forall u :: u in entries ==> u in byId && entries[u] == byId[u]
    {
      entries := map u | u in ids :: byId[u];
    }
  }

  /** The calls of a snapshot, sorted into one list per user that it resolves to. */
  method CallsByUser(directory: Directory, snapshot: seq<Channel>, offset: int)
    returns (callsByUser: map<int, seq<Call>>)
    ensures callsByUser.Keys == UsersIn(directory, snapshot)
    ensures forall u :: CallsFor(directory, snapshot, offset, u) == if u in callsByUser then callsByUser[u] else []
  {
    callsByUser := map[];
    for k := 0 to |snapshot|
      invariant callsByUser.Keys == UsersIn(directory, snapshot[..k])
      invariant forall u :: CallsFor(directory, snapshot[..k], offset, u) == if u in callsByUser then callsByUser[u]
                  else []
    {
      assert snapshot[..k + 1] == snapshot[..k] + [snapshot[k]] && snapshot[..k + 1][..k] == snapshot[..k];
      var channel := snapshot[k];
      var user := Resolve(directory, channel.presenceId, channel.name);
      if user.Some? {
        var sofar := if user.value in callsByUser then callsByUser[user.value] else [];
        callsByUser := callsByUser[user.value := sofar + [CallOf(channel, offset)]];
      }
    }
    assert snapshot[..|snapshot|] == snapshot;
  }

  lemma Replaced(dir: Directory, before: UserCalls, snapshot: seq<Channel>, offset: int,
      callsByUser: map<int, seq<Call>>, after: UserCalls)
    requires callsByUser.Keys == UsersIn(dir, snapshot)
    requires forall u :: CallsFor(dir, snapshot, offset, u) == if u in callsByUser then callsByUser[u] else []
    requires after.Keys == before.Keys + callsByUser.Keys
    requires ReplacedBut(after, callsByUser, {})
    ensures after == LiveCalls.ReplaceCalls(dir, before, snapshot, offset)
  {
    forall u | u in after ensures after[u] == FromList(CallsFor(dir, snapshot, offset, u)) {
      assert CallsFor(dir, snapshot, offset, u) == if u in callsByUser then callsByUser[u] else [];
    }
  }

  class Server {
    const directory: Directory
    const channels: Channels
    const users: UserCache
    var offset: int

    ghost predicate Valid()
      reads this, channels, users
    {
      channels.Valid() && users.Valid()
    }

    function State(): State
      reads this, channels, users
    {
      LiveCalls.State(channels.byUuid, users.Calls(), offset)
    }

    constructor (directory: Directory)
      ensures Valid() && this.directory == directory && State() == START
      ensures fresh(channels) && fresh(users)
    {
      this.directory := directory;
      channels := new Channels();
      users := new UserCache();
      offset := 0;
    }

    method ChannelCreated(channel: Channel, delay: Option<int>)
      requires Valid()
      modifies this, channels, users
      ensures Valid()
      ensures State() == Step(directory, old(State()), Create(channel, delay))
    {
      if delay.Some? {
        offset := if delay.value > 60 || delay.value < -60 then delay.value else 0;
      }
      var user := Resolve(directory, channel.presenceId, channel.name);
      channels.Set(channel);
      if user.Some? {
        users.SetCall(user.value, CallOf(channel, offset), true);
      }
    }

    method ChannelAnswered(uuid: string)
      requires Valid()
      modifies this, channels, users
      ensures Valid()
      ensures State() == Step(directory, old(State()), Answer(uuid))
    {
      var channel := channels.MarkAnswered(uuid);
      if channel.None? { return; }
      var user := Resolve(directory, channel.value.presenceId, channel.value.name);
      if user.None? { return; }
      users.SetCall(user.value, CallOf(channel.value, offset), true);
    }

    method ChannelDestroyed(uuid: string, otherLeg: string, presenceId: string, name: string)
      requires Valid()
      modifies this, channels, users
      ensures Valid()
      ensures State() == Step(directory, old(State()), Destroy(uuid, otherLeg, presenceId, name))
    {
      var channel := channels.RemoveByUUID(uuid, otherLeg);
      if channel.None? {
        CleanupUnknown(uuid, otherLeg, presenceId, name);
        return;
      }
      var user := Resolve(directory, channel.value.presenceId, channel.value.name);
      if user.None? { return; }
      users.SetCall(user.value, Call(channel.value.uuid, 0, "", false), false);
    }

    method CleanupUnknown(uuid: string, otherLeg: string, presenceId: string, name: string)
      requires Valid()
      modifies users
      ensures Valid()
      ensures users.Calls() ==
              var user := Resolve(directory, presenceId, name);
              if user.None? then old(users.Calls())
              else LiveCalls.SetCall(old(users.Calls()), user.value,
                  Call(if uuid == "" then otherLeg else uuid, 0, "", false), false)
    {
      var user := Resolve(directory, presenceId, name);
      if user.None? { return; }
      var gone := uuid;
      if gone == "" { gone := otherLeg; }
      users.SetCall(user.value, Call(gone, 0, "", false), false);
    }

    /** Reconciliation with a channel list; `unknown` are the previously active users whose lookup by id fails.
        Published are exactly the users of the snapshot and those that leave a call, each as it is then. */
    method GetChannels(snapshot: seq<Channel>, unknown: set<int>) returns (published: map<int, UserEntry>)
      requires Valid()
      modifies this, channels, users
      ensures Valid()
      ensures State() == Reconciled(directory, old(State()), snapshot)
      ensures forall u :: u in published ==> u in users.byId && published[u] == users.byId[u]
      ensures forall u :: u in published <==>
                Present(directory, snapshot, u) || (u in old(users.byId) && old(users.byId)[u].inCall && u !in unknown)
    {
      var previous := users.ActiveCallUserIDs();
      var callsByUser := CallsByUser(directory, snapshot, offset);
      ghost var before := users.Calls();
      assert previous <= before.Keys;
      channels.Replace(snapshot);
      assert users.Calls() == before;
      users.ReplaceCalls(callsByUser);
      Replaced(directory, before, snapshot, offset, callsByUser, users.Calls());
      assert users.Calls().Keys == before.Keys + callsByUser.Keys;
      forall u ensures u in UsersIn(directory, snapshot) <==> Present(directory, snapshot, u) {
        UsersArePresent(directory, snapshot, u);
      }
      published := users.Entries(callsByUser.Keys + (previous - unknown));
    }
  }

  /** In a consistent state a user's flags can be read off the channel cache alone. */
  lemma FlagsFromChannels(server: Server, u: int)
    requires server.Valid() && Consistent(server.directory, server.State()) && u in server.users.byId
    ensures server.users.byId[u].inCall <==>
              exists id :: id in server.channels.byUuid &&
                  UserOf(server.directory, server.channels.byUuid[id]) == Some(u)
    ensures server.users.byId[u].summary.talking <==>
              exists id :: id in server.channels.byUuid &&
                  UserOf(server.directory, server.channels.byUuid[id]) == Some(u)
                           && server.channels.byUuid[id].callstate == ACTIVE
  {
    var e := server.users.byId[u];
    var s := server.State();
    assert Fresh(e) && CallsOf(s.calls, u) == e.activeCalls;
    forall id
      ensures id in e.activeCalls <==> id in s.channels && UserOf(server.directory, s.channels[id]) == Some(u)
      ensures id in e.activeCalls ==> e.activeCalls[id].talking == (s.channels[id].callstate == ACTIVE)
    {
      assert Right(server.directory, s, u, id);
    }
    if e.activeCalls != map[] {
      assert exists id :: id in e.activeCalls;
    }
    var order: seq<Call> :| Orders(order, e.activeCalls.Values) && e.summary == Fold(order);
    FoldTalking(order);
    if e.summary.talking {
      var c :| c in order && c.talking;
      assert c in e.activeCalls.Values;
    }
    if id :| id in e.activeCalls && s.channels[id].callstate == ACTIVE {
      assert e.activeCalls[id] in e.activeCalls.Values;
    }
  }
}
