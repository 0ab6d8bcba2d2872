/** The upload function as it is written, with anything other workers do in between its steps, proved to be a run of
    the interleaved steps of RecordingSpool. */
module SpoolWorker {
  import opened Options
  import opened RecordingSpool

  /** Steps of other workers; a crash ends this worker too. */
  ghost predicate OfOthers(w: int, turn: seq<Action>) {
    forall a :: a in turn ==> !a.Crash? && a.w != w
  }

  lemma {:induction false} OthersLeaveWorker(calls: Calls, s: State, turn: seq<Action>, w: int)
    requires OfOthers(w, turn) && w in s.workers
    ensures var t := Run(calls, s, turn); t.rows.Keys == s.rows.Keys && w in t.workers && t.workers[w] == s.workers[w]
  {
    if turn != [] {
      var front := turn[..|turn| - 1];
      assert forall a :: a in front ==> a in turn;
      assert turn[|turn| - 1] in turn;
      OthersLeaveWorker(calls, s, front, w);
      OtherStep(calls, Run(calls, s, front), turn[|turn| - 1], w);
    }
  }

  lemma OtherStep(calls: Calls, s: State, a: Action, w: int)
    requires !a.Crash? && a.w != w && w in s.workers
    ensures var t := Do(calls, s, a); t.rows.Keys == s.rows.Keys && w in t.workers && t.workers[w] == s.workers[w]
  {
  }

  /** What storage and database answer: to each of the five puts, to the metadata write, the removal and the failure
      write. */
  datatype Answers = Answers(stat: bool, puts: nat -> (bool, bool), write: Write, removeFails: bool, failure: Write)

  class Spool {
    const calls: Calls
    var files: set<string>
    var objects: map<string, string>
    var rows: map<string, Row>
    var workers: map<int, Worker>
    ghost var start: State
    ghost var trace: seq<Action>

    function Now(): State
      reads this
    {
      State(files, objects, rows, workers)
    }

    /** The state is what the steps so far make of the first state. */
    ghost predicate Traced()
      reads this
    {
      Now() == Run(calls, start, trace)
    }

    /** Worker `w` stands at `pc`. */
    ghost predicate At(w: int, call: string, pc: Pc)
      reads this
    {
      Traced() && w in workers && workers[w] == Worker(call, pc) && call in rows
    }

    constructor (calls: Calls)
      ensures this.calls == calls && Now() == Start(calls) == start && trace == [] && Traced()
    {
      this.calls, rows := calls, map c | c in calls.ids :: Row(Local, None);
      files, objects, workers, trace := calls.file.Values, map[], map[], [];
      start := Start(calls);
    }

    /** The turn of the other workers: their steps, in any number and order. */
    method Others(w: int, call: string, ghost pc: Pc, turn: seq<Action>)
      requires At(w, call, pc) && OfOthers(w, turn)
      modifies this
      ensures At(w, call, pc) && start == old(start) && trace == old(trace) + turn
    {
      OthersLeaveWorker(calls, Now(), turn, w);
      RunInTwo(calls, start, trace, turn);
      var s := Run(calls, Now(), turn);
      files, objects, rows, workers := s.files, s.objects, s.rows, s.workers;
      trace := trace + turn;
    }

    /** QueueUpload: the row is marked pending and a worker starts. */
    method QueueUpload(w: int, call: string, fails: bool) returns (started: bool)
      requires Traced() && w !in workers && call in rows
      modifies this
      ensures Traced() && start == old(start) && trace == old(trace) + [Queue(w, call, fails)]
      ensures started <==> !fails
      ensures started ==> At(w, call, Starting)
      ensures files == old(files) && objects == old(objects)
      ensures rows == if started then old(rows)[call := Row(Pending, old(rows)[call].key)] else old(rows)
    {
      RunSnoc(calls, start, trace, Queue(w, call, fails));
      trace := trace + [Queue(w, call, fails)];
      if fails { return false; }
      rows := rows[call := rows[call].(status := Pending)];
      workers := workers[w := Worker(call, Starting)];
      return true;
    }

    /** The spool path, the file and the key; a missing or refused one ends the upload. */
    method StatFile(w: int, call: string, ok: bool) returns (key: Option<string>)
      requires At(w, call, Starting)
      modifies this`workers, this`trace
      ensures start == old(start) && trace == old(trace) + [Stat(w, ok)]
      ensures key.Some? ==> At(w, call, Trying(key.value, 1))
      ensures key.None? ==> At(w, call, Failing)
      ensures key.Some? <==> ok && call in calls.file && calls.file[call] in files && call in calls.key
      ensures key.Some? ==> key.value == calls.key[call]
    {
      RunSnoc(calls, start, trace, Stat(w, ok));
      trace := trace + [Stat(w, ok)];
      if !(call in calls.file && calls.file[call] in files && ok && call in calls.key) {
        workers := workers[w := Worker(call, Failing)];
        return None;
      }
      key := Some(calls.key[call]);
      workers := workers[w := Worker(call, Trying(calls.key[call], 1))];
    }

    method OpenFile(w: int, call: string, key: string, attempt: nat) returns (ok: bool)
      requires At(w, call, Trying(key, attempt))
      modifies this`workers, this`trace
      ensures start == old(start) && trace == old(trace) + [Open(w)]
      ensures ok ==> At(w, call, Putting(key, attempt))
      ensures !ok ==> At(w, call, AfterFailure(key, attempt))
      ensures ok <==> call in calls.file && calls.file[call] in files
    {
      RunSnoc(calls, start, trace, Open(w));
      trace := trace + [Open(w)];
      ok := call in calls.file && calls.file[call] in files;
      workers := workers[w := Worker(call, if ok then Putting(key, attempt) else AfterFailure(key, attempt))];
    }

    method PutObject(w: int, call: string, key: string, attempt: nat, ok: bool, stored: bool)
      requires At(w, call, Putting(key, attempt))
      modifies this`objects, this`workers, this`trace
      ensures start == old(start) && trace == old(trace) + [Put(w, ok, stored)]
      ensures ok ==> At(w, call, Marking(key))
      ensures !ok ==> At(w, call, AfterFailure(key, attempt))
      ensures ok || stored ==> objects == old(objects)[key := call]
      ensures !ok && !stored ==> objects == old(objects)
    {
      ghost var s := Now();
      RunSnoc(calls, start, trace, Put(w, ok, stored));
      trace := trace + [Put(w, ok, stored)];
      if ok || stored {
        objects := objects[key := call];
      }
      workers := workers[w := Worker(call, if ok then Marking(key) else AfterFailure(key, attempt))];
      assert Now() == Do(calls, s, Put(w, ok, stored));
    }

    method MarkUploaded(w: int, call: string, key: string, write: Write) returns (ok: bool)
      requires At(w, call, Marking(key))
      modifies this`rows, this`workers, this`trace
      ensures start == old(start) && trace == old(trace) + [Mark(w, write)]
      ensures ok <==> write.Done?
      ensures ok ==> At(w, call, Removing)
      ensures !ok ==> Traced() && w !in workers
      ensures write.Lost? ==> rows == old(rows)
      ensures !write.Lost? ==> rows == old(rows)[call := Row(Uploaded, Some(key))]
    {
      ghost var s := Now();
      RunSnoc(calls, start, trace, Mark(w, write));
      trace := trace + [Mark(w, write)];
      if !write.Lost? {
        rows := rows[call := Row(Uploaded, Some(key))];
      }
      ok := write.Done?;
      workers := if ok then workers[w := Worker(call, Removing)] else workers - {w};
      assert Now() == Do(calls, s, Mark(w, write));
    }

    method RemoveFile(w: int, call: string, fails: bool)
      requires At(w, call, Removing)
      modifies this`files, this`workers, this`trace
      ensures start == old(start) && trace == old(trace) + [Remove(w, fails)]
      ensures Traced() && w !in workers
      ensures fails || call !in calls.file ==> files == old(files)
      ensures !fails && call in calls.file ==> files == old(files) - {calls.file[call]}
    {
      ghost var s := Now();
      RunSnoc(calls, start, trace, Remove(w, fails));
      trace := trace + [Remove(w, fails)];
      if !fails && call in calls.file {
        files := files - {calls.file[call]};
      }
      workers := workers - {w};
      assert Now() == Do(calls, s, Remove(w, fails));
    }

    method MarkFailure(w: int, call: string, write: Write)
      requires At(w, call, Failing)
      modifies this`rows, this`workers, this`trace
      ensures start == old(start) && trace == old(trace) + [Fail(w, write)]
      ensures Traced() && w !in workers
      ensures rows == if write.Lost? then old(rows) else old(rows)[call := Row(Failed, old(rows)[call].key)]
    {
      RunSnoc(calls, start, trace, Fail(w, write));
      trace := trace + [Fail(w, write)];
      if !write.Lost? {
        rows := rows[call := rows[call].(status := Failed)];
      }
      workers := workers - {w};
    }

    /** After a put that succeeded: the row, then the file. */
    method Finish(w: int, call: string, key: string, answers: Answers, turn: nat -> seq<Action>)
      requires At(w, call, Marking(key)) && forall n :: OfOthers(w, turn(n))
      modifies this
      ensures Traced() && start == old(start) && w !in workers
    {
      Others(w, call, Marking(key), turn(2));
      var marked := MarkUploaded(w, call, key, answers.write);
      if !marked { return; }
      Others(w, call, Removing, turn(3));
      RemoveFile(w, call, answers.removeFails);
    }

    method Attempt(w: int, call: string, key: string, attempt: nat, put: (bool, bool), turn: nat -> seq<Action>)
      returns (stored: bool)
      requires At(w, call, Trying(key, attempt)) && forall n :: OfOthers(w, turn(n))
      modifies this
      ensures start == old(start)
      ensures stored ==> At(w, call, Marking(key))
      ensures !stored ==> At(w, call, AfterFailure(key, attempt))
    {
      Others(w, call, Trying(key, attempt), turn(0));
      var there := OpenFile(w, call, key, attempt);
      if !there { return false; }
      Others(w, call, Putting(key, attempt), turn(1));
      PutObject(w, call, key, attempt, put.0, put.1);
      stored := put.0;
    }

    /** The whole upload, the others taking a turn before each of its steps: it ends, and every state it went through
        is one of the interleaved machine. */
    method Upload(w: int, call: string, answers: Answers, turns: nat -> nat -> seq<Action>)
      requires At(w, call, Starting) && forall n, m :: OfOthers(w, turns(n)(m))
      modifies this
      ensures Traced() && start == old(start) && w !in workers
    {
      Others(w, call, Starting, turns(0)(0));
      var found := StatFile(w, call, answers.stat);
      if found.None? {
        Others(w, call, Failing, turns(0)(1));
        MarkFailure(w, call, answers.failure);
        return;
      }
      var key, attempt := found.value, 1;
      while attempt <= 5
        invariant 1 <= attempt <= 6 && start == old(start)
        invariant At(w, call, if attempt <= 5 then Trying(key, attempt) else Failing)
      {
        var stored := Attempt(w, call, key, attempt, answers.puts(attempt), turns(attempt));
        if stored {
          Finish(w, call, key, answers, turns(attempt));
          return;
        }
        attempt := attempt + 1;
      }
      Others(w, call, Failing, turns(6)(0));
      MarkFailure(w, call, answers.failure);
    }
  }

  /** So after an upload, whatever the others did, no recording is lost. */
  lemma UploadLosesNothing(spool: Spool)
    requires spool.Traced() && spool.start == Start(spool.calls) && OwnFiles(spool.calls) && OwnKeys(spool.calls)
    ensures NothingLost(spool.calls, spool.Now())
  {
    RunKeepsInv(spool.calls, spool.trace);
    InvKeeps(spool.calls, spool.Now());
  }
}
