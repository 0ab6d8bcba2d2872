/** Moving recordings from the local spool to object storage: any number of upload workers,
    a retry that queues them again, failing calls and crashes, all interleaved. */
module RecordingSpool {
  import opened Options
  import Route = RecordingRoute
  import Text

  datatype Status = Local | Pending | Failed | Uploaded

  datatype Row = Row(status: Status, key: Option<string>)

  /** Where a worker stands. */
  datatype Pc =
    | Starting
    | Trying(key: string, attempt: nat)    // about to open the file for this attempt
    | Putting(key: string, attempt: nat)   // the file is open, the put is under way
    | Marking(key: string)                 // stored; the row comes next
    | Removing                             // the row is written; the file goes next
    | Failing                              // about to write the failure

  datatype Worker = Worker(call: string, pc: Pc)

  datatype State = State(
    files: set<string>, objects: map<string, string>,   // by key, the call whose file was put last
    rows: map<string, Row>, workers: map<int, Worker>)

  /** What is fixed for every call: its row, the spool file of its record path, and the key it is stored under. */
  datatype Calls = Calls(ids: set<string>, file: map<string, string>, key: map<string, string>)

  /** As `upload` computes them; `modified` is the modification time of a file. */
  function CallsOf(prefix: string, recordPaths: map<string, string>, modified: string -> Route.Date): (calls: Calls)
    ensures calls.ids == recordPaths.Keys
    ensures forall c :: c in calls.file <==> c in recordPaths && Route.SpoolPath(recordPaths[c]).Some?
    ensures forall c :: c in calls.file ==> Some(calls.file[c]) == Route.SpoolPath(recordPaths[c])
    ensures forall c :: c in calls.key <==> c in calls.file && Route.ValidId(c)
  {
    var file := map c | c in recordPaths && Route.SpoolPath(recordPaths[c]).Some? ::
        Route.SpoolPath(recordPaths[c]).value;
    Calls(recordPaths.Keys, file, map c | c in file && Route.ValidId(c) :: KeyOf(prefix, c, file[c], modified(file[c])))
  }

  function KeyOf(prefix: string, call: string, file: string, modified: Route.Date): string
    requires Route.ValidId(call)
  {
    Route.ObjectKey(prefix, call, Route.Ext(file), modified).value
  }

  const ATTEMPTS: nat := 5

  /** How a metadata write ends: a failing one may still have been applied. */
  datatype Write = Done | Lost | DoneUnknown

  datatype Action =
    | Queue(w: int, call: string, fails: bool)      // by the end of the call, by its repetition, or by the retry
    | Stat(w: int, ok: bool)                        // a file that is there may still be refused
    | Open(w: int)
    | Put(w: int, ok: bool, stored: bool)           // a failing put may still have stored the object
    | Mark(w: int, write: Write)
    | Remove(w: int, fails: bool)
    | Fail(w: int, write: Write)
    | Crash

  function Goto(s: State, w: int, pc: Pc): State
    requires w in s.workers
  {
    s.(workers := s.workers[w := s.workers[w].(pc := pc)])
  }

  function End(s: State, w: int): State {
    s.(workers := s.workers - {w})
  }

  function AfterFailure(key: string, attempt: nat): Pc {
    if attempt < ATTEMPTS then Trying(key, attempt + 1) else Failing
  }

  function SetStatus(s: State, call: string, status: Status): State
    requires call in s.rows
  {
    s.(rows := s.rows[call := s.rows[call].(status := status)])
  }

  predicate There(calls: Calls, s: State, call: string) {
    call in calls.file && calls.file[call] in s.files
  }

  /** An action that is not possible in `s` leaves it as it is. */
  function Do(calls: Calls, s: State, a: Action): State {
    match a
    case Queue(w, call, fails) =>
      if w in s.workers || call !in s.rows || fails then s
      else SetStatus(s, call, Pending).(workers := s.workers[w := Worker(call, Starting)])
    case Crash => s.(workers := map[])
    case _ =>
      if a.w !in s.workers || s.workers[a.w].call !in s.rows then s else WorkerStep(calls, s, a)
  }

  function WorkerStep(calls: Calls, s: State, a: Action): State
    requires !a.Queue? && !a.Crash?
    requires a.w in s.workers && s.workers[a.w].call in s.rows
  {
    var call, pc := s.workers[a.w].call, s.workers[a.w].pc;
    match a
    case Stat(w, ok) =>
      if !pc.Starting? then s
      else Goto(s, w, if ok && There(calls, s, call) && call in calls.key then Trying(calls.key[call], 1) else Failing)
    case Open(w) =>
      if !pc.Trying? then s
      else Goto(s, w, if There(calls, s, call) then Putting(pc.key, pc.attempt) else AfterFailure(pc.key, pc.attempt))
    case Put(w, ok, stored) =>
      if !pc.Putting? then s
      else
        var t := if ok || stored then s.(objects := s.objects[pc.key := call]) else s;
        Goto(t, w, if ok then Marking(pc.key) else AfterFailure(pc.key, pc.attempt))
    case Mark(w, write) =>
      if !pc.Marking? then s
      else
        var t := if write.Lost? then s else s.(rows := s.rows[call := Row(Uploaded, Some(pc.key))]);
        if write.Done? then Goto(t, w, Removing) else End(t, w)
    case Remove(w, fails) =>
      if !pc.Removing? then s
      else End(if fails || call !in calls.file then s else s.(files := s.files - {calls.file[call]}), w)
    case Fail(w, write) =>
      if !pc.Failing? then s
      else End(if write.Lost? then s else SetStatus(s, call, Failed), w)
  }

  function Run(calls: Calls, s: State, actions: seq<Action>): State {
    if actions == [] then s else Do(calls, Run(calls, s, actions[..|actions| - 1]), actions[|actions| - 1])
  }

  lemma RunSnoc(calls: Calls, s: State, a: seq<Action>, x: Action)
    ensures Run(calls, s, a + [x]) == Do(calls, Run(calls, s, a), x)
    ensures Run(calls, s, []) == s
  {
    assert (a + [x])[..|a + [x]| - 1] == a;
  }

  lemma {:induction false} RunInTwo(calls: Calls, s: State, a: seq<Action>, b: seq<Action>)
    ensures Run(calls, s, a + b) == Run(calls, Run(calls, s, a), b)
    decreases |b|
  {
    if b == [] {
      assert a + b == a;
    } else {
      RunInTwo(calls, s, a, b[..|b| - 1]);
      assert (a + b)[..|a + b| - 1] == a + b[..|b| - 1];
    }
  }

  lemma RunFirst(calls: Calls, s: State, x: Action, rest: seq<Action>)
    ensures Run(calls, s, [x] + rest) == Run(calls, Do(calls, s, x), rest)
  {
    RunInTwo(calls, s, [x], rest);
    RunSnoc(calls, s, [], x);
    assert [] + [x] == [x];
  }

  /** Every call ended, nothing was uploaded yet. */
  function Start(calls: Calls): State {
    State(calls.file.Values, map[], map c | c in calls.ids :: Row(Local, None), map[])
  }

  // ----- no recording is lost -----

  /** The recording is in its file, or under the key of its row, and there it was not overwritten by another one.  Files
      outside the spool are not touched. */
  ghost predicate Kept(calls: Calls, s: State, call: string)
    requires call in s.rows
  {
    call in calls.file ==>
      || calls.file[call] in s.files
      || (s.rows[call].key.Some? && s.rows[call].key.value in s.objects && s.objects[s.rows[call].key.value] == call)
  }

  ghost predicate NothingLost(calls: Calls, s: State) {
    forall c :: c in calls.ids ==> c in s.rows && Kept(calls, s, c)
  }

  /** A call that can be uploaded shares its spool file with no other call. */
  ghost predicate OwnFiles(calls: Calls) {
    forall c, d :: c in calls.key && c in calls.file && d in calls.file && c != d ==> calls.file[c] != calls.file[d]
  }

  ghost predicate OwnKeys(calls: Calls) {
    && calls.key.Keys <= calls.file.Keys <= calls.ids
    && (forall c, d :: c in calls.key && d in calls.key && calls.key[c] == calls.key[d] ==> c == d)
  }

  ghost predicate Stored(calls: Calls, s: State, call: string) {
    call in calls.key && calls.key[call] in s.objects && s.objects[calls.key[call]] == call
  }

  predicate CarriesKey(calls: Calls, call: string, pc: Pc) {
    pc.Trying? || pc.Putting? || pc.Marking? ==> call in calls.key && pc.key == calls.key[call]
  }

  ghost predicate WorkerOk(calls: Calls, s: State, w: int)
    requires w in s.workers
  {
    var call, pc := s.workers[w].call, s.workers[w].pc;
    && call in s.rows
    && CarriesKey(calls, call, pc)
    && (pc.Marking? ==> Stored(calls, s, call))
    && (pc.Removing? ==> s.rows[call].key.Some?)
  }

  ghost predicate RowOk(calls: Calls, s: State, c: string)
    requires c in s.rows
  {
    && (s.rows[c].key.Some? ==> Stored(calls, s, c) && s.rows[c].key.value == calls.key[c])
    && (c in calls.file && calls.file[c] !in s.files ==> s.rows[c].key.Some?)
  }

  ghost predicate Inv(calls: Calls, s: State) {
    && s.rows.Keys == calls.ids
    && (forall c :: c in s.rows ==> RowOk(calls, s, c))
    && (forall w :: w in s.workers ==> WorkerOk(calls, s, w))
  }

  lemma StepKeepsInv(calls: Calls, s: State, a: Action)
    requires OwnFiles(calls) && OwnKeys(calls) && Inv(calls, s)
    ensures Inv(calls, Do(calls, s, a))
  {
    var t := Do(calls, s, a);
    if a.Queue? || a.Crash? {
      QueueOrCrashKeeps(calls, s, a);
    } else if a.w in s.workers && s.workers[a.w].call in s.rows {
      RowsStay(calls, s, a);
      forall c | c in t.rows ensures RowOk(calls, t, c) {
        WorkerKeepsRow(calls, s, a, c);
      }
      forall w | w in t.workers ensures WorkerOk(calls, t, w) {
        WorkerKeepsWorker(calls, s, a, w);
      }
    }
  }

  lemma QueueOrCrashKeeps(calls: Calls, s: State, a: Action)
    requires Inv(calls, s) && (a.Queue? || a.Crash?)
    ensures Inv(calls, Do(calls, s, a))
  {
    var t := Do(calls, s, a);
    forall c | c in t.rows ensures RowOk(calls, t, c) {
      assert RowOk(calls, s, c);
    }
    forall w | w in t.workers ensures WorkerOk(calls, t, w) {
      if w in s.workers { assert WorkerOk(calls, s, w); }
    }
  }

  ghost predicate Acts(s: State, a: Action) {
    !a.Queue? && !a.Crash? && a.w in s.workers && s.workers[a.w].call in s.rows
  }

  lemma RowsStay(calls: Calls, s: State, a: Action)
    requires Acts(s, a)
    ensures WorkerStep(calls, s, a).rows.Keys == s.rows.Keys
    ensures WorkerStep(calls, s, a).workers.Keys <= s.workers.Keys
  {
  }

  /** What is stored for a call stays stored: only its own worker puts under its key. */
  lemma StoredStays(calls: Calls, s: State, a: Action, c: string)
    requires OwnKeys(calls) && Acts(s, a) && WorkerOk(calls, s, a.w) && Stored(calls, s, c)
    ensures Stored(calls, WorkerStep(calls, s, a), c)
  {
  }

  lemma WorkerKeepsKey(calls: Calls, s: State, a: Action, c: string)
    requires OwnKeys(calls) && Acts(s, a) && WorkerOk(calls, s, a.w) && c in s.rows && RowOk(calls, s, c)
    ensures var t := WorkerStep(calls, s, a);
            && c in t.rows && (s.rows[c].key.Some? ==> t.rows[c].key.Some?)
            && (t.rows[c].key.Some? ==> Stored(calls, s, c) && t.rows[c].key.value == calls.key[c])
  {
  }

  /** A worker removes only the file of its call, after the row was written. */
  lemma OnlyOwnFile(calls: Calls, s: State, a: Action, f: string)
    requires Acts(s, a) && f in s.files && f !in WorkerStep(calls, s, a).files
    ensures s.workers[a.w].pc.Removing? && s.workers[a.w].call in calls.file && f == calls.file[s.workers[a.w].call]
  {
  }

  lemma WorkerKeepsRow(calls: Calls, s: State, a: Action, c: string)
    requires OwnFiles(calls) && OwnKeys(calls) && Inv(calls, s) && Acts(s, a) && c in s.rows
    ensures c in WorkerStep(calls, s, a).rows && RowOk(calls, WorkerStep(calls, s, a), c)
  {
    var t, call := WorkerStep(calls, s, a), s.workers[a.w].call;
    assert WorkerOk(calls, s, a.w) && RowOk(calls, s, c) && RowOk(calls, s, call);
    WorkerKeepsKey(calls, s, a, c);
    if t.rows[c].key.Some? {
      StoredStays(calls, s, a, c);
    }
    if c in calls.file && calls.file[c] in s.files && calls.file[c] !in t.files {
      OnlyOwnFile(calls, s, a, calls.file[c]);
      assert call == c;
    }
  }

  lemma WorkerKeepsWorker(calls: Calls, s: State, a: Action, w: int)
    requires OwnKeys(calls) && Inv(calls, s) && Acts(s, a) && w in WorkerStep(calls, s, a).workers
    ensures WorkerOk(calls, WorkerStep(calls, s, a), w)
  {
    RowsStay(calls, s, a);
    assert WorkerOk(calls, s, w) && WorkerOk(calls, s, a.w);
    if w == a.w {
      OwnStep(calls, s, a);
    } else {
      var call := s.workers[w].call;
      assert RowOk(calls, s, call);
      WorkerKeepsKey(calls, s, a, call);
      if Stored(calls, s, call) { StoredStays(calls, s, a, call); }
      assert WorkerStep(calls, s, a).workers[w] == s.workers[w];
    }
  }

  lemma OwnStep(calls: Calls, s: State, a: Action)
    requires Acts(s, a) && WorkerOk(calls, s, a.w) && a.w in WorkerStep(calls, s, a).workers
    ensures WorkerOk(calls, WorkerStep(calls, s, a), a.w)
  {
  }

  lemma {:induction false} RunKeepsInv(calls: Calls, actions: seq<Action>)
    requires OwnFiles(calls) && OwnKeys(calls)
    ensures Inv(calls, Run(calls, Start(calls), actions))
  {
    if actions == [] {
      assert forall c :: c in calls.file ==> calls.file[c] in calls.file.Values;
    } else {
      RunKeepsInv(calls, actions[..|actions| - 1]);
      StepKeepsInv(calls, Run(calls, Start(calls), actions[..|actions| - 1]), actions[|actions| - 1]);
    }
  }

  lemma InvKeeps(calls: Calls, s: State)
    requires Inv(calls, s)
    ensures NothingLost(calls, s)
  {
    forall c | c in calls.ids ensures c in s.rows && Kept(calls, s, c) {
      assert RowOk(calls, s, c);
    }
  }

  // ----- a run that loses a recording -----

  /** The six steps of an undisturbed upload. */
  function Undisturbed(w: int, c: string): seq<Action> {
    [Queue(w, c, false), Stat(w, true), Open(w), Put(w, true, true), Mark(w, Done), Remove(w, false)]
  }

  lemma RunSix(calls: Calls, s: State, a: Action, b: Action, c: Action, d: Action, e: Action, f: Action)
    ensures Run(calls, s, [a, b, c, d, e, f]) ==
            Do(calls, Do(calls, Do(calls, Do(calls, Do(calls, Do(calls, s, a), b), c), d), e), f)
  {
    assert [a, b, c, d, e, f] == [a] + ([b] + ([c] + ([d] + ([e] + ([f] + [])))));
    var s1 := Do(calls, s, a);
    var s2 := Do(calls, s1, b);
    var s3 := Do(calls, s2, c);
    var s4 := Do(calls, s3, d);
    var s5 := Do(calls, s4, e);
    RunFirst(calls, s, a, [b] + ([c] + ([d] + ([e] + ([f] + [])))));
    RunFirst(calls, s1, b, [c] + ([d] + ([e] + ([f] + []))));
    RunFirst(calls, s2, c, [d] + ([e] + ([f] + [])));
    RunFirst(calls, s3, d, [e] + ([f] + []));
    RunFirst(calls, s4, e, [f] + []);
    RunFirst(calls, s5, f, []);
  }

  /** An undisturbed upload leaves the object and the row, and no file. */
  lemma UploadAlone(calls: Calls, s: State, w: int, c: string) returns (t: State)
    requires w !in s.workers && c in s.rows && There(calls, s, c) && c in calls.key
    ensures t == Run(calls, s, Undisturbed(w, c))
    ensures t == State(s.files - {calls.file[c]}, s.objects[calls.key[c] := c],
                       s.rows[c := Row(Uploaded, Some(calls.key[c]))], s.workers)
  {
    var key := calls.key[c];
    RunSix(calls, s, Queue(w, c, false), Stat(w, true), Open(w), Put(w, true, true), Mark(w, Done), Remove(w, false));
    var s3 := UploadBegins(calls, s, w, c);
    t := UploadEnds(calls, s3, w, c, key);
    assert s3.workers - {w} == s.workers;
  }

  lemma UploadBegins(calls: Calls, s: State, w: int, c: string) returns (s3: State)
    requires w !in s.workers && c in s.rows && There(calls, s, c) && c in calls.key
    ensures s3 == Do(calls, Do(calls, Do(calls, s, Queue(w, c, false)), Stat(w, true)), Open(w))
    ensures s3 == State(s.files, s.objects, s.rows[c := s.rows[c].(status := Pending)],
                        s.workers[w := Worker(c, Putting(calls.key[c], 1))])
  {
    var s1 := Do(calls, s, Queue(w, c, false));
    var s2 := Do(calls, s1, Stat(w, true));
    assert s2.workers == s.workers[w := Worker(c, Trying(calls.key[c], 1))];
    s3 := Do(calls, s2, Open(w));
  }

  lemma UploadEnds(calls: Calls, s: State, w: int, c: string, key: string) returns (t: State)
    requires w in s.workers && s.workers[w] == Worker(c, Putting(key, 1)) && c in s.rows && c in calls.file
    ensures t == Do(calls, Do(calls, Do(calls, s, Put(w, true, true)), Mark(w, Done)), Remove(w, false))
    ensures t == State(s.files - {calls.file[c]}, s.objects[key := c], s.rows[c := Row(Uploaded, Some(key))],
            s.workers - {w})
  {
    var s1 := Do(calls, s, Put(w, true, true));
    var s2 := Do(calls, s1, Mark(w, Done));
    assert s2.workers == s.workers[w := Worker(c, Removing)];
    t := Do(calls, s2, Remove(w, false));
    assert s2.workers - {w} == s.workers - {w};
  }

  /** Two calls that share a file: uploading the one removes the other's. */
  lemma SharedFileLoses(calls: Calls, c: string, d: string) returns (actions: seq<Action>)
    requires OwnKeys(calls) && c in calls.key && d in calls.file && c != d && calls.file[c] == calls.file[d]
    ensures !NothingLost(calls, Run(calls, Start(calls), actions))
  {
    actions := Undisturbed(0, c);
    assert calls.file[c] in calls.file.Values;
    var t := UploadAlone(calls, Start(calls), 0, c);
    assert !Kept(calls, t, d);
  }

  lemma NothingLostIff(calls: Calls)
    requires OwnKeys(calls)
    ensures (forall actions :: NothingLost(calls, Run(calls, Start(calls), actions))) <==> OwnFiles(calls)
  {
    if OwnFiles(calls) {
      forall actions ensures NothingLost(calls, Run(calls, Start(calls), actions)) {
        RunKeepsInv(calls, actions);
        InvKeeps(calls, Run(calls, Start(calls), actions));
      }
    } else {
      var c, d :| c in calls.key && c in calls.file && d in calls.file && c != d && calls.file[c] == calls.file[d];
      var actions := SharedFileLoses(calls, c, d);
    }
  }

  // ----- the calls of the server -----

  lemma CallsHaveOwnKeys(prefix: string, recordPaths: map<string, string>, modified: string -> Route.Date)
    ensures OwnKeys(CallsOf(prefix, recordPaths, modified))
  {
    var calls := CallsOf(prefix, recordPaths, modified);
    forall c, d | c in calls.key && d in calls.key && calls.key[c] == calls.key[d] ensures c == d {
      SameKeySameCall(prefix, c, calls.file[c], modified(calls.file[c]), d, calls.file[d], modified(calls.file[d]));
    }
  }

  lemma SameKeySameCall(prefix: string, c: string, f: string, m: Route.Date, d: string, g: string, n: Route.Date)
    requires Route.ValidId(c) && Route.ValidId(d) && KeyOf(prefix, c, f, m) == KeyOf(prefix, d, g, n)
    ensures c == d
  {
    Route.KeysDiffer(prefix, c, f, m, d, g, n);
  }

  /** Two record paths that lead to one spool file, at least one of them of a call that can be uploaded. */
  ghost predicate SharedSpool(recordPaths: map<string, string>) {
    exists c, d :: c in recordPaths && d in recordPaths && c != d && SharesFile(recordPaths, c, d)
  }

  predicate SharesFile(recordPaths: map<string, string>, c: string, d: string)
    requires c in recordPaths && d in recordPaths
  {
    Route.ValidId(c) && Route.SpoolPath(recordPaths[c]).Some? &&
        Route.SpoolPath(recordPaths[c]) == Route.SpoolPath(recordPaths[d])
  }

  /** In every interleaving no recording is lost, exactly when no record paths of different calls lead to one spool
      file. */
  lemma NoRecordingLostIff(prefix: string, recordPaths: map<string, string>, modified: string -> Route.Date)
    ensures var calls := CallsOf(prefix, recordPaths, modified);
            (forall actions :: NothingLost(calls, Run(calls, Start(calls), actions))) <==> !SharedSpool(recordPaths)
  {
    var calls := CallsOf(prefix, recordPaths, modified);
    CallsHaveOwnKeys(prefix, recordPaths, modified);
    NothingLostIff(calls);
    if OwnFiles(calls) {
      forall c, d | c in recordPaths && d in recordPaths && c != d ensures !SharesFile(recordPaths, c, d) {
        assert c in calls.key && d in calls.file ==> calls.file[c] != calls.file[d];
      }
    } else {
      var c, d :| c in calls.key && c in calls.file && d in calls.file && c != d && calls.file[c] == calls.file[d];
      assert SharesFile(recordPaths, c, d);
    }
  }

  // ----- when "uploaded" is final -----

  ghost predicate NoNewQueue(call: string, actions: seq<Action>) {
    forall a :: a in actions && a.Queue? ==> a.call != call
  }

  predicate Past(pc: Pc) {
    pc.Marking? || pc.Removing?
  }

  /** The row says uploaded, and every live worker of the call has stored its object already. */
  ghost predicate Settled(s: State, call: string) {
    && call in s.rows && s.rows[call].status == Uploaded
    && forall w :: w in s.workers && s.workers[w].call == call ==> Past(s.workers[w].pc)
  }

  lemma SettledStep(calls: Calls, s: State, call: string, a: Action)
    requires Settled(s, call) && (a.Queue? ==> a.call != call)
    ensures Settled(Do(calls, s, a), call)
  {
  }

  lemma {:induction false} SettledStays(calls: Calls, s: State, call: string, actions: seq<Action>)
    requires Settled(s, call) && NoNewQueue(call, actions)
    ensures Settled(Run(calls, s, actions), call)
  {
    if actions != [] {
      var front := actions[..|actions| - 1];
      assert forall a :: a in front ==> a in actions;
      assert actions[|actions| - 1] in actions;
      SettledStays(calls, s, call, front);
      SettledStep(calls, Run(calls, s, front), call, actions[|actions| - 1]);
    }
  }

  /** How many steps a worker can still be kept from its end. */
  function Distance(pc: Pc): nat {
    match pc
    case Starting => 1
    case Trying(_, attempt) => 2 + 2 * if attempt < ATTEMPTS then ATTEMPTS - attempt else 0
    case Putting(_, attempt) => 1 + 2 * if attempt < ATTEMPTS then ATTEMPTS - attempt else 0
    case _ => 0
  }

  function Hindrance(w: int, pc: Pc): Action {
    match pc
    case Starting => Stat(w, false)
    case Trying(_, _) => Open(w)
    case Putting(_, _) => Put(w, false, false)
    case _ => Fail(w, Done)
  }

  lemma HindranceHinders(calls: Calls, s: State, w: int)
    requires w in s.workers && s.workers[w].call in s.rows && !Past(s.workers[w].pc) && !s.workers[w].pc.Failing?
    ensures var t := Do(calls, s, Hindrance(w, s.workers[w].pc));
            && w in t.workers && t.workers[w].call == s.workers[w].call && t.rows == s.rows
            && !Past(t.workers[w].pc) && Distance(t.workers[w].pc) < Distance(s.workers[w].pc)
  {
  }

  /** A worker that has not stored its object can still write the failure. */
  lemma {:induction false} CanFail(calls: Calls, s: State, w: int, call: string) returns (actions: seq<Action>)
    requires w in s.workers && s.workers[w].call == call && call in s.rows && !Past(s.workers[w].pc)
    ensures NoNewQueue(call, actions)
    ensures call in Run(calls, s, actions).rows && Run(calls, s, actions).rows[call].status == Failed
    decreases Distance(s.workers[w].pc)
  {
    var a := Hindrance(w, s.workers[w].pc);
    if s.workers[w].pc.Failing? {
      actions := [a];
      RunSnoc(calls, s, [], a);
      assert [] + [a] == [a];
    } else {
      HindranceHinders(calls, s, w);
      var rest := CanFail(calls, Do(calls, s, a), w, call);
      actions := [a] + rest;
      RunFirst(calls, s, a, rest);
    }
  }

  /** A row that says uploaded keeps saying so, as long as the call is not queued again, exactly when every live worker
      of the call has stored its object already. */
  lemma UploadedIsFinalIff(calls: Calls, s: State, call: string)
    requires call in s.rows && s.rows[call].status == Uploaded
    ensures (forall actions :: NoNewQueue(call, actions) ==>
               call in Run(calls, s, actions).rows && Run(calls, s, actions).rows[call].status == Uploaded)
       <==> (forall w :: w in s.workers && s.workers[w].call == call ==> Past(s.workers[w].pc))
  {
    if forall w :: w in s.workers && s.workers[w].call == call ==> Past(s.workers[w].pc) {
      forall actions | NoNewQueue(call, actions)
        ensures call in Run(calls, s, actions).rows && Run(calls, s, actions).rows[call].status == Uploaded
      {
        SettledStays(calls, s, call, actions);
      }
    } else {
      var w :| w in s.workers && s.workers[w].call == call && !Past(s.workers[w].pc);
      var actions := CanFail(calls, s, w, call);
    }
  }

  /** The file is gone, the row says something else than uploaded, and no worker still holds the file or its object. */
  ghost predicate Stuck(calls: Calls, s: State, call: string) {
    && call in s.rows && !There(calls, s, call)
    && s.rows[call].status != Uploaded
    && forall w :: w in s.workers && s.workers[w].call == call ==>
        !s.workers[w].pc.Putting? && !s.workers[w].pc.Marking?
  }

  /** From such a state no interleaving, with any retries, ever shows the call as uploaded again. */
  lemma {:induction false} StuckForever(calls: Calls, s: State, call: string, actions: seq<Action>)
    requires Stuck(calls, s, call)
    ensures Stuck(calls, Run(calls, s, actions), call)
  {
    if actions != [] {
      StuckForever(calls, s, call, actions[..|actions| - 1]);
      StuckStep(calls, Run(calls, s, actions[..|actions| - 1]), call, actions[|actions| - 1]);
    }
  }

  lemma StuckStep(calls: Calls, s: State, call: string, a: Action)
    requires Stuck(calls, s, call)
    ensures Stuck(calls, Do(calls, s, a), call)
  {
  }

  /** Such a state is reached: a worker that starts before another one has removed the file writes its failure over
      "uploaded", with the recording safely stored. */
  lemma UploadedIsNotFinal(calls: Calls, call: string) returns (before: seq<Action>, after: seq<Action>)
    requires OwnKeys(calls) && call in calls.key
    ensures var mid := Run(calls, Start(calls), before);
            && call in mid.rows && mid.rows[call].status == Uploaded && mid.workers != map[]
            && Stuck(calls, Run(calls, mid, after), call) && Kept(calls, Run(calls, mid, after), call)
  {
    before := [Queue(1, call, false)] + Undisturbed(0, call);
    after := [Stat(1, true), Fail(1, Done)];
    var s0, key := Start(calls), calls.key[call];
    assert calls.file[call] in calls.file.Values;
    var s1 := Do(calls, s0, Queue(1, call, false));
    RunFirst(calls, s0, Queue(1, call, false), Undisturbed(0, call));
    var mid := UploadAlone(calls, s1, 0, call);
    assert mid.workers == map[1 := Worker(call, Starting)];
    LateWorkerFails(calls, mid, call);
  }

  lemma LateWorkerFails(calls: Calls, s: State, call: string)
    requires call in s.rows && !There(calls, s, call) && s.workers == map[1 := Worker(call, Starting)]
    ensures Run(calls, s, [Stat(1, true), Fail(1, Done)]) ==
            s.(rows := s.rows[call := s.rows[call].(status := Failed)], workers := map[])
  {
    var s1 := Do(calls, s, Stat(1, true));
    assert s1 == s.(workers := map[1 := Worker(call, Failing)]);
    RunFirst(calls, s, Stat(1, true), [Fail(1, Done)]);
    RunFirst(calls, s1, Fail(1, Done), []);
    assert [Stat(1, true)] + [Fail(1, Done)] == [Stat(1, true), Fail(1, Done)];
    assert [Fail(1, Done)] + [] == [Fail(1, Done)];
    assert s1.workers - {1} == map[];
  }

  // ----- what is uploaded where, and how often it is tried -----

  /** A call's recording is stored under the day of its file, with its id and the extension of the file. */
  lemma StoredUnder(prefix: string, recordPaths: map<string, string>, modified: string -> Route.Date, call: string,
      front: string, e: string) returns (year: string, month: string, day: string)
    requires call in CallsOf(prefix, recordPaths, modified).key && '.' !in e && '/' !in e && e != ""
    requires call in recordPaths && Route.SpoolPath(recordPaths[call]) == Some(front + "." + e)
    ensures CallsOf(prefix, recordPaths, modified).key[call] ==
            prefix + "/" + year + "/" + month + "/" + day + "/" + call + ("." + e)
    ensures Text.AllDigits(year) && Text.AllDigits(month) && Text.AllDigits(day)
    ensures var date := modified(front + "." + e);
            Text.Value(year) == date.year && Text.Value(month) == date.month && Text.Value(day) == date.day
  {
    var calls, file := CallsOf(prefix, recordPaths, modified), front + "." + e;
    assert calls.file[call] == file;
    Route.ExtIs(front, e);
    year, month, day := Route.KeyReads(prefix, call, "." + e, modified(file), calls.key[call]);
  }

  lemma OneFailure(calls: Calls, s: State, w: int, call: string, key: string, attempt: nat)
    requires w in s.workers && s.workers[w] == Worker(call, Trying(key, attempt)) && call in s.rows
    requires There(calls, s, call)
    ensures Do(calls, Do(calls, s, Open(w)), Put(w, false, false)) ==
            s.(workers := s.workers[w := Worker(call, if attempt < 5 then Trying(key, attempt + 1) else Failing)])
  {
  }

  /** After five attempts that store nothing the row says failed, and file, objects and key are as before. */
  lemma FiveFailures(calls: Calls, s: State, w: int, call: string) returns (t: State)
    requires w in s.workers && s.workers[w] == Worker(call, Starting) && call in s.rows && There(calls, s, call)
    requires call in calls.key
    ensures var attempt := [Open(w), Put(w, false, false)];
            t == Run(calls, s, [Stat(w, true)] + attempt + attempt + attempt + attempt + attempt + [Fail(w, Done)])
    ensures t == s.(rows := s.rows[call := s.rows[call].(status := Failed)], workers := s.workers - {w})
  {
    var attempt := [Open(w), Put(w, false, false)];
    var key, trace := calls.key[call], [Stat(w, true)];
    var now := Do(calls, s, Stat(w, true));
    RunSnoc(calls, s, [], Stat(w, true));
    assert [] + [Stat(w, true)] == trace;
    assert now == s.(workers := s.workers[w := Worker(call, Trying(key, 1))]);
    trace, now := Attempted(calls, s, trace, w, call, key, 1, now);
    trace, now := Attempted(calls, s, trace, w, call, key, 2, now);
    trace, now := Attempted(calls, s, trace, w, call, key, 3, now);
    trace, now := Attempted(calls, s, trace, w, call, key, 4, now);
    trace, now := Attempted(calls, s, trace, w, call, key, 5, now);
    RunSnoc(calls, s, trace, Fail(w, Done));
    t := FailedAtLast(calls, s, now, w, call);
  }

  lemma FailedAtLast(calls: Calls, s: State, now: State, w: int, call: string) returns (t: State)
    requires now == s.(workers := s.workers[w := Worker(call, Failing)]) && call in s.rows
    ensures t == Do(calls, now, Fail(w, Done))
    ensures t == s.(rows := s.rows[call := s.rows[call].(status := Failed)], workers := s.workers - {w})
  {
    t := Do(calls, now, Fail(w, Done));
    assert now.workers - {w} == s.workers - {w};
  }

  lemma Attempted(calls: Calls, s: State, trace: seq<Action>, w: int, call: string, key: string, attempt: nat,
      now: State)
      returns (trace': seq<Action>, now': State)
    requires now == Run(calls, s, trace) && call in s.rows && There(calls, s, call)
    requires now == s.(workers := s.workers[w := Worker(call, Trying(key, attempt))])
    ensures trace' == trace + [Open(w), Put(w, false, false)] && now' == Run(calls, s, trace')
    ensures var pc := if attempt < 5 then Trying(key, attempt + 1) else Failing;
            now' == s.(workers := s.workers[w := Worker(call, pc)])
  {
    trace' := trace + [Open(w), Put(w, false, false)];
    RunSnoc(calls, s, trace, Open(w));
    RunSnoc(calls, s, trace + [Open(w)], Put(w, false, false));
    assert trace + [Open(w)] + [Put(w, false, false)] == trace';
    OneFailure(calls, now, w, call, key, attempt);
    now' := Do(calls, Do(calls, now, Open(w)), Put(w, false, false));
  }

  /** A crash ends every worker and nothing else; in particular what it had put or written stays. */
  lemma CrashEnds(calls: Calls, s: State)
    ensures Do(calls, s, Crash) == State(s.files, s.objects, s.rows, map[])
  {
  }
}
