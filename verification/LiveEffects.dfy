/** What every event leaves in the two caches of LiveCalls, read off their contents: which channel is stored, whose call
    comes, goes or changes, and what that call says. */
module LiveEffects {
  import opened CallSummary
  import opened LiveCalls
  import opened Options

  /** The presence of the channel, or its name when it has none, is that of user `u`. */
  predicate Belongs(dir: Directory, presenceId: string, name: string, u: int) {
    if presenceId != "" then presenceId in dir && dir[presenceId] == u else name in dir && dir[name] == u
  }

  /** Whole seconds on the server's clock; 0 when the channel does not say when it was created. */
  predicate CreatedAt(at: int, epoch: Option<int>, offset: int) {
    match epoch
    case None => at == 0
    case Some(e) =>
      && (e <= 0 ==> at == 0)
      && (0 < e <= 1_000_000_000_000 ==> at == e + offset)
      && (e > 1_000_000_000_000 ==> (at - offset) * 1_000_000 <= e < (at - offset + 1) * 1_000_000)
  }

  predicate Says(call: Call, c: Channel, offset: int) {
    && call.uuid == c.uuid && call.direction == c.direction
    && (call.talking <==> c.callstate == "ACTIVE")
    && CreatedAt(call.createdAt, c.createdEpoch, offset)
  }

  predicate SameCall(calls: UserCalls, calls': UserCalls, v: int, j: string) {
    if j in CallsOf(calls, v) then j in CallsOf(calls', v) && CallsOf(calls', v)[j] == CallsOf(calls, v)[j]
    else j !in CallsOf(calls', v)
  }

  /** No call but `id` of user `u` comes, goes or changes. */
  ghost predicate OnlyCall(calls: UserCalls, calls': UserCalls, u: int, id: string) {
    forall v, j {:trigger SameCall(calls, calls', v, j)} :: v != u || j != id ==> SameCall(calls, calls', v, j)
  }

  /** Nobody's call, or that of nobody known. */
  ghost predicate NoUser(dir: Directory, presenceId: string, name: string) {
    forall u :: u != 0 ==> !Belongs(dir, presenceId, name, u)
  }

  lemma CallSays(c: Channel, offset: int)
    ensures Says(CallOf(c, offset), c, offset)
  {
  }

  lemma ResolveBelongs(dir: Directory, presenceId: string, name: string, u: int)
    ensures Belongs(dir, presenceId, name, u) <==> Resolve(dir, presenceId, name) == Some(u)
  {
  }

  lemma NobodyResolved(dir: Directory, presenceId: string, name: string)
    requires NoUser(dir, presenceId, name)
    ensures Resolve(dir, presenceId, name) == None || Resolve(dir, presenceId, name) == Some(0)
  {
    if Resolve(dir, presenceId, name).Some? {
      ResolveBelongs(dir, presenceId, name, Resolve(dir, presenceId, name).value);
    }
  }

  lemma SetOneCall(calls: UserCalls, user: int, call: Call, active: bool)
    requires user != 0 && call.uuid != ""
    ensures OnlyCall(calls, SetCall(calls, user, call, active), user, call.uuid)
    ensures call.uuid in CallsOf(SetCall(calls, user, call, active), user) <==> active
    ensures active ==> CallsOf(SetCall(calls, user, call, active), user)[call.uuid] == call
  {
  }

  /** The offset that a create event leaves: the delay when it is more than a minute, none when it is less. */
  predicate OffsetSet(offset: int, delay: Option<int>, offset': int) {
    match delay
    case None => offset' == offset
    case Some(d) => offset' == if -60 <= d <= 60 then 0 else d
  }

  /** A create event caches the channel and puts its user, if there is one, in this call; nothing else changes. */
  lemma CreateStores(dir: Directory, s: State, c: Channel, delay: Option<int>, u: int)
    ensures var t := Step(dir, s, Create(c, delay));
            && OffsetSet(s.offset, delay, t.offset)
            && t.channels == (if c.uuid == "" then s.channels else s.channels[c.uuid := c])
            && (c.uuid == "" || NoUser(dir, c.presenceId, c.name) ==> t.calls == s.calls)
            && (c.uuid != "" && u != 0 && Belongs(dir, c.presenceId, c.name, u) ==>
                  && OnlyCall(s.calls, t.calls, u, c.uuid)
                  && c.uuid in CallsOf(t.calls, u) && Says(CallsOf(t.calls, u)[c.uuid], c, t.offset))
  {
    var offset := OffsetAfter(s.offset, delay);
    ResolveBelongs(dir, c.presenceId, c.name, u);
    CallSays(c, offset);
    if NoUser(dir, c.presenceId, c.name) { NobodyResolved(dir, c.presenceId, c.name); }
    if c.uuid != "" && u != 0 { SetOneCall(s.calls, u, CallOf(c, offset), true); }
  }

  /** An answer marks the cached channel active and its user's call talking; an unknown one changes nothing. */
  lemma AnswerMarks(dir: Directory, s: State, uuid: string, u: int)
    requires uuid in s.channels ==> s.channels[uuid].uuid == uuid != ""
    ensures var t := Step(dir, s, Answer(uuid));
            && t.offset == s.offset
            && (uuid !in s.channels ==> t == s)
            && (uuid in s.channels ==>
                  var c := s.channels[uuid].(callstate := "ACTIVE");
                  && t.channels == s.channels[uuid := c]
                  && (NoUser(dir, c.presenceId, c.name) ==> t.calls == s.calls)
                  && (u != 0 && Belongs(dir, c.presenceId, c.name, u) ==>
                        && OnlyCall(s.calls, t.calls, u, uuid)
                        && uuid in CallsOf(t.calls, u) && Says(CallsOf(t.calls, u)[uuid], c, t.offset)
                        && CallsOf(t.calls, u)[uuid].talking))
  {
    if uuid in s.channels {
      var c := s.channels[uuid].(callstate := ACTIVE);
      ResolveBelongs(dir, c.presenceId, c.name, u);
      CallSays(c, s.offset);
      if NoUser(dir, c.presenceId, c.name) { NobodyResolved(dir, c.presenceId, c.name); }
      if u != 0 { SetOneCall(s.calls, u, CallOf(c, s.offset), true); }
    }
  }

  /** The call `id` is gone from its user, who is named by this presence, and nothing else changed. */
  ghost predicate CallEnded(dir: Directory, calls: UserCalls, calls': UserCalls, presenceId: string, name: string,
      id: string)
  {
    && (id == "" || NoUser(dir, presenceId, name) ==> calls' == calls)
    && (forall u :: id != "" && u != 0 && Belongs(dir, presenceId, name, u) ==>
          OnlyCall(calls, calls', u, id) && id !in CallsOf(calls', u))
  }

  lemma EndCall(dir: Directory, calls: UserCalls, presenceId: string, name: string, id: string)
    ensures var user := Resolve(dir, presenceId, name);
            var calls' := if user.None? then calls else SetCall(calls, user.value, Call(id, 0, "", false), false);
            CallEnded(dir, calls, calls', presenceId, name, id)
  {
    if NoUser(dir, presenceId, name) { NobodyResolved(dir, presenceId, name); }
    forall u | id != "" && u != 0 && Belongs(dir, presenceId, name, u)
      ensures OnlyCall(calls, SetCall(calls, u, Call(id, 0, "", false), false), u, id)
      ensures id !in CallsOf(SetCall(calls, u, Call(id, 0, "", false), false), u)
      ensures Resolve(dir, presenceId, name) == Some(u)
    {
      ResolveBelongs(dir, presenceId, name, u);
      SetOneCall(calls, u, Call(id, 0, "", false), false);
    }
  }

  /** A destroy event removes the channel it names, or else the other leg, with the call of that channel's user; of an
      unknown channel it ends the call of the user that the event names. */
  lemma DestroyRemoves(dir: Directory, s: State, uuid: string, otherLeg: string, presenceId: string, name: string)
    requires forall id :: id in s.channels ==> id != "" && s.channels[id].uuid == id
    ensures var t := Step(dir, s, Destroy(uuid, otherLeg, presenceId, name));
            && t.offset == s.offset
            && (uuid in s.channels ==>
                  && t.channels == s.channels - {uuid}
                  && CallEnded(dir, s.calls, t.calls, s.channels[uuid].presenceId, s.channels[uuid].name, uuid))
            && (uuid !in s.channels && otherLeg in s.channels ==>
                  var c := s.channels[otherLeg];
                  && t.channels == s.channels - {otherLeg}
                  && CallEnded(dir, s.calls, t.calls, c.presenceId, c.name, otherLeg))
            && (uuid !in s.channels && otherLeg !in s.channels ==>
                  && t.channels == s.channels
                  && CallEnded(dir, s.calls, t.calls, presenceId, name, if uuid != "" then uuid else otherLeg))
  {
    if uuid in s.channels {
      EndCall(dir, s.calls, s.channels[uuid].presenceId, s.channels[uuid].name, uuid);
    } else if otherLeg in s.channels {
      EndCall(dir, s.calls, s.channels[otherLeg].presenceId, s.channels[otherLeg].name, otherLeg);
    } else {
      EndCall(dir, s.calls, presenceId, name, if uuid != "" then uuid else otherLeg);
    }
  }

  /** Entry `k` is the last one of its uuid in the snapshot. */
  ghost predicate LastEntry(snapshot: seq<Channel>, k: int, id: string) {
    0 <= k < |snapshot| && snapshot[k].uuid == id && forall m :: k < m < |snapshot| ==> snapshot[m].uuid != id
  }

  /** The entry is a call `id` of user `u`. */
  predicate Gives(dir: Directory, c: Channel, id: string, u: int) {
    c.uuid == id && Belongs(dir, c.presenceId, c.name, u)
  }

  ghost predicate LastOfUser(dir: Directory, snapshot: seq<Channel>, k: int, id: string, u: int) {
    && 0 <= k < |snapshot| && Gives(dir, snapshot[k], id, u)
    && forall m :: k < m < |snapshot| ==> !Gives(dir, snapshot[m], id, u)
  }

  lemma {:induction false} LastEntryKept(snapshot: seq<Channel>, id: string) returns (k: int)
    requires id != "" && exists m :: 0 <= m < |snapshot| && snapshot[m].uuid == id
    ensures LastEntry(snapshot, k, id) && id in ChannelsIn(snapshot) && ChannelsIn(snapshot)[id] == snapshot[k]
    decreases |snapshot|
  {
    var front, last := snapshot[..|snapshot| - 1], snapshot[|snapshot| - 1];
    if last.uuid == id {
      k := |snapshot| - 1;
    } else {
      var m :| 0 <= m < |snapshot| && snapshot[m].uuid == id;
      assert front[m].uuid == id;
      k := LastEntryKept(front, id);
      assert snapshot[k] == front[k];
    }
  }

  /** The user is in call `id` exactly when an entry gives it that call, and the call is as in the last such entry. */
  ghost predicate UserCallsAre(dir: Directory, snapshot: seq<Channel>, offset: int, u: int, id: string,
      calls: CallMap) {
    && (id in calls <==> id != "" && exists k :: 0 <= k < |snapshot| && Gives(dir, snapshot[k], id, u))
    && (id in calls ==> exists k :: LastOfUser(dir, snapshot, k, id, u) && Says(calls[id], snapshot[k], offset))
  }

  lemma UserCallsNext(dir: Directory, front: seq<Channel>, last: Channel, snapshot: seq<Channel>, offset: int, u: int,
      id: string, before: CallMap)
    requires snapshot == front + [last] && UserCallsAre(dir, front, offset, u, id, before)
    ensures Gives(dir, last, id, u) && id != "" ==>
              UserCallsAre(dir, snapshot, offset, u, id, before[id := CallOf(last, offset)])
    ensures !Gives(dir, last, id, u) || id == "" ==> UserCallsAre(dir, snapshot, offset, u, id, before)
  {
    CallSays(last, offset);
    assert snapshot[|front|] == last;
    if Gives(dir, last, id, u) && id != "" {
      assert LastOfUser(dir, snapshot, |front|, id, u);
    } else {
      if id in before {
        var k :| LastOfUser(dir, front, k, id, u) && Says(before[id], front[k], offset);
        assert snapshot[k] == front[k] && LastOfUser(dir, snapshot, k, id, u);
      }
      if k :| 0 <= k < |snapshot| && Gives(dir, snapshot[k], id, u) && id != "" {
        assert front[k] == snapshot[k];
      }
    }
  }

  lemma OtherCallsAre(dir: Directory, snapshot: seq<Channel>, offset: int, u: int, id: string, calls: CallMap,
      other: string, call: Call)
    requires UserCallsAre(dir, snapshot, offset, u, id, calls) && other != id
    ensures UserCallsAre(dir, snapshot, offset, u, id, calls[other := call])
  {
  }

  lemma {:induction false} UserCallsKept(dir: Directory, snapshot: seq<Channel>, offset: int, u: int, id: string)
    ensures UserCallsAre(dir, snapshot, offset, u, id, FromList(CallsFor(dir, snapshot, offset, u)))
    decreases |snapshot|
  {
    if snapshot != [] {
      var front, last := snapshot[..|snapshot| - 1], snapshot[|snapshot| - 1];
      var before := FromList(CallsFor(dir, front, offset, u));
      UserCallsKept(dir, front, offset, u, id);
      RebuiltStep(dir, snapshot, offset, u);
      ResolveBelongs(dir, last.presenceId, last.name, u);
      UserCallsNext(dir, front, last, snapshot, offset, u, id, before);
      if last.uuid != id {
        OtherCallsAre(dir, snapshot, offset, u, id, before, last.uuid, CallOf(last, offset));
      }
    }
  }

  /** After a snapshot exactly its uuids are cached, each as in its last entry; and a user is in exactly the calls that
      entries of the snapshot give to that user, each as in the last such entry. */
  lemma ReconcileHolds(dir: Directory, s: State, snapshot: seq<Channel>, u: int, id: string)
    ensures var t := Step(dir, s, Reconcile(snapshot));
            && t.offset == s.offset
            && (id in t.channels <==> id != "" && exists k :: 0 <= k < |snapshot| && snapshot[k].uuid == id)
            && (id in t.channels ==> exists k :: LastEntry(snapshot, k, id) && t.channels[id] == snapshot[k])
            && (id in CallsOf(t.calls, u) <==>
                  id != "" && exists k :: 0 <= k < |snapshot| && Gives(dir, snapshot[k], id, u))
            && (id in CallsOf(t.calls, u) ==>
                  exists k :: LastOfUser(dir, snapshot, k, id, u) &&
                      Says(CallsOf(t.calls, u)[id], snapshot[k], s.offset))
  {
    ChannelsInHas(snapshot);
    if id in ChannelsIn(snapshot) {
      var k := LastEntryKept(snapshot, id);
    }
    AfterReconcile(dir, s, snapshot, u);
    UserCallsKept(dir, snapshot, s.offset, u, id);
  }

  /** Some entry of the snapshot is of this user. */
  ghost predicate Present(dir: Directory, snapshot: seq<Channel>, u: int) {
    exists k :: 0 <= k < |snapshot| && Belongs(dir, snapshot[k].presenceId, snapshot[k].name, u)
  }

  lemma {:induction false} UsersArePresent(dir: Directory, snapshot: seq<Channel>, u: int)
    ensures u in UsersIn(dir, snapshot) <==> Present(dir, snapshot, u)
    decreases |snapshot|
  {
    if snapshot != [] {
      var front, last := snapshot[..|snapshot| - 1], snapshot[|snapshot| - 1];
      UsersArePresent(dir, front, u);
      ResolveBelongs(dir, last.presenceId, last.name, u);
      if k :| 0 <= k < |front| && Belongs(dir, front[k].presenceId, front[k].name, u) {
        assert snapshot[k] == front[k];
      }
      if k :| 0 <= k < |snapshot| && Belongs(dir, snapshot[k].presenceId, snapshot[k].name, u) {
        assert k < |front| ==> front[k] == snapshot[k];
      }
    }
  }
}
