/** Runs and node executions as the objects that update their rows. */
module CanvasRuns {
  import opened Options
  import opened RunExecutions

  class Database {
    var runs: map<nat, Run>
    var executions: map<nat, Execution>
    var queueItems: map<nat, QueueItem>
    var events: seq<Event>

    function Rows(): Tables
      reads this
    {
      Tables(runs, executions, queueItems, events)
    }
  }

  /** A caller's copy of an execution row. Its state can be out of date. */
  class NodeExecution {
    const id: nat
    const workflowId: nat
    const runId: nat
    var state: ExecutionState
    var result: Outcome
    var reason: string
    var message: string

    constructor (id: nat, row: Execution)
      ensures this.id == id && Copy() == row
    {
      this.id, workflowId, runId := id, row.workflowId, row.runId;
      state, result, reason, message := row.state, row.result, row.reason, row.message;
    }

    function Copy(): Execution
      reads this
    {
      Execution(workflowId, runId, state, result, reason, message)
    }

    /** The columns that never change are those of the row. */
    ghost predicate CopyOf(db: Database)
      reads db
    {
      id in db.executions ==> db.executions[id].workflowId == workflowId && db.executions[id].runId == runId
    }

    method FindState(db: Database) returns (found: Option<ExecutionState>)
      ensures found == if id in db.executions then Some(db.executions[id].state) else None
    {
      if id in db.executions {
        return Some(db.executions[id].state);
      }
      return None;
    }

    /** Checks the copy, not the row. */
    method StartInTransaction(db: Database) returns (ok: bool)
      modifies this, db
      ensures db.Rows() == Apply(old(db.Rows()), Start(id, old(state)))
      ensures db.executions == if ok && id in old(db.executions)
                               then old(db.executions)[id := old(db.executions)[id].(state := Started)] else old(db.executions)
      ensures db.events == old(db.events) && db.queueItems == old(db.queueItems) && db.runs == old(db.runs)
      ensures ok <==> old(state) == Pending
      ensures Copy() == if ok then old(Copy()).(state := Started) else old(Copy())
    {
      if state != Pending {
        return false;
      }
      state := Started;
      if id in db.executions {
        db.executions := db.executions[id := db.executions[id].(state := Started)];
      }
      return true;
    }

    /** The events created, or nothing when the row does not exist. The state is read and the row written in one step here. */
    method PassInTransaction(db: Database, outputs: seq<string>) returns (created: Option<seq<Event>>)
      requires CopyOf(db)
      modifies this, db
      ensures created.Some? <==> id in old(db.executions)
      ensures created.None? ==> db.Rows() == old(db.Rows()) && Copy() == old(Copy())
      ensures created.Some? ==> db.Rows() == Apply(old(db.Rows()), Pass(id, old(db.executions)[id].state, outputs))
      ensures created.Some? ==> db.events == old(db.events) + created.value
      ensures created.Some? ==>
                var row := old(db.executions)[id];
                if row.state in {Pending, Started} then
                  && db.executions == old(db.executions)[id := row.(state := Finished, result := Passed)]
                  && |created.value| == |outputs|
                  && forall i :: 0 <= i < |outputs| ==> created.value[i] == Event(workflowId, runId, id, outputs[i], true)
                else db.executions == old(db.executions) && created.value == []
      ensures db.queueItems == old(db.queueItems) && db.runs == old(db.runs)
      ensures created.Some? ==> var call := Pass(id, old(db.executions)[id].state, outputs);
                                Copy() == if Ends(call) then Ended(old(Copy()), call) else old(Copy())
    {
      var current := FindState(db);
      if current.None? {
        return None;
      }
      if current.value == Finished || current.value == Cancelling {
        return Some([]);
      }
      var newEvents: seq<Event> := [];
      for i := 0 to |outputs|
        invariant |newEvents| == i
        invariant forall k :: 0 <= k < i ==> newEvents[k] == Event(workflowId, runId, id, outputs[k], true)
      {
        newEvents := newEvents + [Event(workflowId, runId, id, outputs[i], true)];
      }
      assert newEvents == OutputEvents(id, db.executions[id], outputs);
      if |newEvents| > 0 {
        db.events := db.events + newEvents;
      }
      state, result := Finished, Passed;
      db.executions := db.executions[id := db.executions[id].(state := Finished, result := Passed)];
      return Some(newEvents);
    }

    /** Creates events whatever the state, and starts the execution if the copy is pending. */
    method EmitOutputsInTransaction(db: Database, outputs: seq<string>) returns (created: seq<Event>)
      requires CopyOf(db) && id in db.executions
      modifies this, db
      ensures db.Rows() == Apply(old(db.Rows()), Emit(id, old(state), outputs))
      ensures db.events == old(db.events) + created && |created| == |outputs|
      ensures forall i :: 0 <= i < |outputs| ==> created[i] == Event(workflowId, runId, id, outputs[i], true)
      ensures db.executions == if old(state) == Pending
                               then old(db.executions)[id := old(db.executions)[id].(state := Started)] else old(db.executions)
      ensures Copy() == if old(state) == Pending then old(Copy()).(state := Started) else old(Copy())
    {
      created := [];
      for i := 0 to |outputs|
        invariant |created| == i
        invariant forall k :: 0 <= k < i ==> created[k] == Event(workflowId, runId, id, outputs[k], true)
      {
        created := created + [Event(workflowId, runId, id, outputs[i], true)];
      }
      assert created == OutputEvents(id, db.executions[id], outputs);
      if |created| > 0 {
        db.events := db.events + created;
      }
      if state == Pending {
        var started := StartInTransaction(db);
      }
    }

    /** Whether this call failed the execution, or nothing when the row does not exist. */
    method FailInTransaction(db: Database, failReason: string, failMessage: string) returns (failed: Option<bool>)
      modifies this, db
      ensures failed.Some? <==> id in old(db.executions)
      ensures failed.None? ==> db.Rows() == old(db.Rows()) && Copy() == old(Copy())
      ensures failed.Some? ==> var call := Fail(id, old(db.executions)[id].state, failReason, failMessage);
                               && db.Rows() == Apply(old(db.Rows()), call) && failed.value == Ends(call)
                               && Copy() == if Ends(call) then Ended(old(Copy()), call) else old(Copy())
      ensures failed.Some? ==>
                var row := old(db.executions)[id];
                && (failed.value <==> row.state in {Pending, Started})
                && (failed.value ==>
                      db.executions == old(db.executions)[id := Execution(row.workflowId, row.runId, Finished, Failed,
                                                                          failReason, failMessage)])
                && (!failed.value ==> db.executions == old(db.executions))
      ensures db.events == old(db.events) && db.queueItems == old(db.queueItems) && db.runs == old(db.runs)
    {
      var current := FindState(db);
      if current.None? {
        return None;
      }
      if current.value == Finished || current.value == Cancelling {
        return Some(false);
      }
      state, result, reason, message := Finished, Failed, failReason, failMessage;
      var row := db.executions[id];
      db.executions :=
        db.executions[id := row.(state := Finished, result := Failed, reason := failReason, message := failMessage)];
      return Some(true);
    }

    method RequestCancellation(db: Database)
      modifies this, db
      ensures db.Rows() == Apply(old(db.Rows()), RunExecutions.RequestCancellation(id))
      ensures Copy() == old(Copy()).(state := Cancelling)
      ensures id in old(db.executions) ==>
                db.executions == old(db.executions)[id := old(db.executions)[id].(state := Cancelling)]
    {
      state := Cancelling;
      if id in db.executions {
        db.executions := db.executions[id := db.executions[id].(state := Cancelling)];
      }
    }

    method CancelInTransaction(db: Database) returns (ok: bool)
      modifies this, db
      ensures ok <==> id in old(db.executions)
      ensures !ok ==> db.Rows() == old(db.Rows()) && Copy() == old(Copy())
      ensures ok ==> var call := Cancel(id, old(db.executions)[id].state);
                     && db.Rows() == Apply(old(db.Rows()), call)
                     && Copy() == if Ends(call) then Ended(old(Copy()), call) else old(Copy())
      ensures ok ==>
                var row := old(db.executions)[id];
                db.executions == if row.state == Finished then old(db.executions)
                                 else old(db.executions)[id := row.(state := Finished, result := Cancelled)]
      ensures db.events == old(db.events) && db.queueItems == old(db.queueItems) && db.runs == old(db.runs)
    {
      var current := FindState(db);
      if current.None? {
        return false;
      }
      if current.value == Finished {
        return true;
      }
      state, result := Finished, Cancelled;
      db.executions := db.executions[id := db.executions[id].(state := Finished, result := Cancelled)];
      return true;
    }
  }

  ghost predicate Lists(rows: seq<(nat, Execution)>, executions: map<nat, Execution>, ids: set<nat>) {
    && (forall i :: 0 <= i < |rows| ==> rows[i].0 in ids && rows[i].0 in executions && rows[i].1 == executions[rows[i].0])
    && (forall id :: id in ids ==> exists i :: 0 <= i < |rows| && rows[i].0 == id)
    && (forall i, j :: 0 <= i < j < |rows| ==> rows[i].0 != rows[j].0)
  }

  /** Asks every execution of the list that is still open to cancel. */
  method CancelNodeExecutions(db: Database, rows: seq<(nat, Execution)>) returns (requestedIds: seq<nat>)
    requires Lists(rows, db.executions, set i | 0 <= i < |rows| :: rows[i].0)
    modifies db
    ensures db.Rows() == old(db.Rows()).(executions := db.executions)
    ensures forall id :: id in requestedIds <==> exists i :: 0 <= i < |rows| && rows[i].0 == id && Open(rows[i].1.state)
    ensures db.executions == Requested(old(db.executions), set id | id in requestedIds)
  {
    requestedIds := [];
    assert db.executions == Requested(db.executions, {});
    for i := 0 to |rows|
      invariant db.Rows() == old(db.Rows()).(executions := db.executions)
      invariant forall id :: id in requestedIds <==> exists k :: 0 <= k < i && rows[k].0 == id && Open(rows[k].1.state)
      invariant db.executions == Requested(old(db.executions), set id | id in requestedIds)
    {
      var execution := new NodeExecution(rows[i].0, rows[i].1);
      if execution.state == Finished || execution.state == Cancelling {
        continue;
      }
      execution.RequestCancellation(db);
      requestedIds := requestedIds + [execution.id];
    }
  }

  function WithoutItems(items: map<nat, QueueItem>, item: QueueItem): map<nat, QueueItem> {
    map id | id in items && items[id] != item :: items[id]
  }

  function SupersededEvents(events: seq<Event>, runId: nat): seq<Event> {
    seq(|events|, i requires 0 <= i < |events| => Superseded(events[i], runId))
  }

  /** A locked copy of a run row. */
  class CanvasRun {
    const id: nat
    const workflowId: nat
    var state: RunState
    var result: Outcome
    var hasErrors: bool

    constructor (id: nat, row: Run)
      ensures this.id == id && Row() == row
    {
      this.id, workflowId := id, row.workflowId;
      state, result, hasErrors := row.state, row.result, row.hasErrors;
    }

    function Row(): Run
      reads this
    {
      Run(workflowId, state, result, hasErrors)
    }

    /** The copy is of the row, and the lock keeps the row as it is. */
    ghost predicate Locked(db: Database)
      reads this, db
    {
      id in db.runs && db.runs[id] == Row()
    }

    method ListOpenExecutions(db: Database) returns (rows: seq<(nat, Execution)>)
      ensures Lists(rows, db.executions, OpenIds(db.executions, Row(), id))
    {
      rows := [];
      var left := OpenIds(db.executions, Row(), id);
      while left != {}
        invariant left <= OpenIds(db.executions, Row(), id)
        invariant Lists(rows, db.executions, OpenIds(db.executions, Row(), id) - left)
      {
        var next :| next in left;
        ListsOneMore(rows, db.executions, OpenIds(db.executions, Row(), id) - left, next);
        rows := rows + [(next, db.executions[next])];
        assert OpenIds(db.executions, Row(), id) - (left - {next}) == OpenIds(db.executions, Row(), id) - left + {next};
        left := left - {next};
      }
      assert OpenIds(db.executions, Row(), id) - left == OpenIds(db.executions, Row(), id);
    }

    method DeleteQueueItems(db: Database) returns (deleted: set<nat>)
      modifies db
      ensures db.Rows() == old(db.Rows()).(queueItems := WithoutItems(old(db.queueItems), QueueItem(workflowId, id)))
      ensures deleted == old(db.queueItems).Keys - db.queueItems.Keys
    {
      deleted := set item | item in db.queueItems && db.queueItems[item] == QueueItem(workflowId, id);
      db.queueItems := db.queueItems - deleted;
    }

    /** The pending events of the run as they were, all of which are closed. */
    method SupersedePendingEvents(db: Database) returns (found: seq<Event>)
      modifies db
      ensures db.Rows() == old(db.Rows()).(events := SupersededEvents(old(db.events), id))
      ensures forall e :: e in found <==> e in old(db.events) && e.runId == id && e.pending
    {
      found := [];
      for i := 0 to |db.events|
        invariant db.Rows() == old(db.Rows())
        invariant forall e :: e in found <==> e in db.events[..i] && e.runId == id && e.pending
      {
        assert db.events[..i + 1] == db.events[..i] + [db.events[i]];
        if db.events[i].runId == id && db.events[i].pending {
          found := found + [db.events[i]];
        }
      }
      assert db.events[..|db.events|] == db.events;
      if |found| == 0 {
        NothingToSupersede(db.events, id);
        return;
      }
      db.events := SupersededEvents(db.events, id);
    }

    method DrainForCancellation(db: Database) returns (requestedIds: seq<nat>, deleted: set<nat>, found: seq<Event>)
      modifies db
      ensures db.Rows() == DrainedTables(old(db.Rows()), Row(), id)
      ensures db.Rows() == DrainedFrom(old(db.Rows()), (set e | e in requestedIds), Row(), id)
      ensures forall e :: e in requestedIds <==>
                && e in old(db.executions) && old(db.executions)[e].workflowId == workflowId
                && old(db.executions)[e].runId == id && old(db.executions)[e].state in {Pending, Started}
    {
      var rows := ListOpenExecutions(db);
      ghost var before := db.executions;
      ListedIds(rows, db.executions, OpenIds(db.executions, Row(), id));
      requestedIds := CancelNodeExecutions(db, rows);
      RequestedIsDrained(before, rows, requestedIds, Row(), id);
      deleted := DeleteQueueItems(db);
      found := SupersedePendingEvents(db);
      assert (set e | e in requestedIds) == OpenIds(before, Row(), id);
    }

    method MarkAsCancelling(db: Database)
      requires id in db.runs
      modifies this, db
      ensures Row() == old(Row()).(state := RunCancelling)
      ensures db.Rows() == old(db.Rows()).(runs := old(db.runs)[id := old(db.runs)[id].(state := RunCancelling)])
    {
      state := RunCancelling;
      db.runs := db.runs[id := db.runs[id].(state := RunCancelling)];
    }

    /** The transaction of a cancel request for a run of a canvas, after the run has been locked. */
    method CancelRun(db: Database, canvasId: nat) returns (found: bool)
      requires Locked(db)
      modifies this, db
      ensures Locked(db)
      ensures found <==> workflowId == canvasId
      ensures db.Rows() == if found then CancelledTables(old(db.Rows()), id) else old(db.Rows())
      ensures found ==>
                db.Rows() == CancelledFrom(
                  old(db.Rows()),
                  (set e | && e in old(db.executions) && old(db.executions)[e].workflowId == workflowId
                           && old(db.executions)[e].runId == id && old(db.executions)[e].state in {Pending, Started}),
                  id)
    {
      if workflowId != canvasId {
        return false;
      }
      assert OpenIds(db.executions, Row(), id)
          == set e | && e in db.executions && db.executions[e].workflowId == workflowId
                     && db.executions[e].runId == id && db.executions[e].state in {Pending, Started};
      if state == RunFinished {
        return true;
      }
      var requestedIds, deleted, superseded := DrainForCancellation(db);
      if state == RunCancelling {
        assert db.runs[id := db.runs[id]] == db.runs;
        return true;
      }
      MarkAsCancelling(db);
      return true;
    }

    method FindOpenWork(db: Database) returns (hasActiveExecutions: bool, hasQueueItems: bool, hasPendingEvents: bool)
      ensures hasActiveExecutions <==> ActiveExecutions(db.Rows(), id) != {}
      ensures hasQueueItems <==> HasQueueItems(db.Rows(), id)
      ensures hasPendingEvents <==> HasPendingEvents(db.Rows(), id)
      ensures hasActiveExecutions || hasQueueItems || hasPendingEvents <==> HasOpenWork(db.Rows(), id)
      ensures hasActiveExecutions <==>
                exists e :: && e in db.executions && db.executions[e].runId == id
                            && db.executions[e].state in {Pending, Started, Cancelling}
      ensures hasQueueItems <==> exists item :: item in db.queueItems && db.queueItems[item].runId == id
      ensures hasPendingEvents <==> exists i :: 0 <= i < |db.events| && db.events[i].runId == id && db.events[i].pending
    {
      hasActiveExecutions := exists e :: && e in db.executions && db.executions[e].runId == id
                                         && db.executions[e].state in {Pending, Started, Cancelling};
      ActiveIff(db.Rows(), id);
      hasQueueItems := exists item :: item in db.queueItems && db.queueItems[item].runId == id;
      hasPendingEvents := exists i :: 0 <= i < |db.events| && db.events[i].runId == id && db.events[i].pending;
    }

    /** Being cancelled counts before errors, errors and failures before cancelled executions, and those before passing. */
    method CalculateResult(db: Database) returns (outcome: Outcome)
      ensures outcome != Unset
      ensures state == RunCancelling ==> outcome == Cancelled
      ensures state != RunCancelling && !hasErrors ==>
                && (outcome == Failed <==>
                      exists e :: e in db.executions && db.executions[e].runId == id && db.executions[e].result == Failed)
                && (outcome == Passed <==>
                      forall e :: e in db.executions && db.executions[e].runId == id ==>
                                    db.executions[e].result != Failed && db.executions[e].result != Cancelled)
      ensures outcome == Failed <==> state != RunCancelling && (hasErrors || HasResult(db.Rows(), id, Failed))
      ensures outcome == Passed
              <==> && state != RunCancelling && !hasErrors
                   && !HasResult(db.Rows(), id, Failed) && !HasResult(db.Rows(), id, Cancelled)
    {
      if state == RunCancelling {
        return Cancelled;
      }
      if hasErrors {
        return Failed;
      }
      var hasFailed := exists e :: e in db.executions && db.executions[e].runId == id && db.executions[e].result == Failed;
      var hasCancelled :=
        exists e :: e in db.executions && db.executions[e].runId == id && db.executions[e].result == Cancelled;
      if hasFailed {
        return Failed;
      }
      if hasCancelled {
        return Cancelled;
      }
      return Passed;
    }

    /** The finalizer's check of a locked run: the result, when nothing of the run is open. */
    method Finalize(db: Database) returns (outcome: Option<Outcome>)
      requires Locked(db)
      modifies this, db
      ensures outcome.Some? <==> old(state) != RunFinished && !HasOpenWork(old(db.Rows()), id)
      ensures outcome.None? ==> db.Rows() == old(db.Rows()) && Row() == old(Row())
      ensures outcome.Some? ==> db.Rows() == old(db.Rows()).(runs := old(db.runs)[id := Row()])
                                && Row() == old(Row()).(state := RunFinished, result := outcome.value)
      ensures outcome == Some(Failed)
              ==> old(state) != RunCancelling && (old(hasErrors) || HasResult(old(db.Rows()), id, Failed))
      ensures outcome == Some(Passed)
              ==> && old(state) != RunCancelling && !old(hasErrors)
                  && !HasResult(old(db.Rows()), id, Failed) && !HasResult(old(db.Rows()), id, Cancelled)
      ensures outcome == Some(Cancelled)
              ==> || old(state) == RunCancelling
                  || (!old(hasErrors) && !HasResult(old(db.Rows()), id, Failed) && HasResult(old(db.Rows()), id, Cancelled))
      ensures outcome != Some(Unset)
    {
      if state == RunFinished {
        return None;
      }
      var hasActiveExecutions, hasQueueItems, hasPendingEvents := FindOpenWork(db);
      if hasActiveExecutions || hasQueueItems || hasPendingEvents {
        return None;
      }
      var outcomeNow := CalculateResult(db);
      state, result := RunFinished, outcomeNow;
      db.runs := db.runs[id := db.runs[id].(state := RunFinished, result := outcomeNow)];
      return Some(outcomeNow);
    }
  }

  lemma ActiveIff(t: Tables, runId: nat)
    ensures ActiveExecutions(t, runId) != {}
            <==> exists e :: && e in t.executions && t.executions[e].runId == runId
                             && t.executions[e].state in {Pending, Started, Cancelling}
  {
    if e :| && e in t.executions && t.executions[e].runId == runId && t.executions[e].state in {Pending, Started, Cancelling} {
      assert e in ActiveExecutions(t, runId);
    }
  }

  lemma ListsOneMore(rows: seq<(nat, Execution)>, executions: map<nat, Execution>, ids: set<nat>, next: nat)
    requires Lists(rows, executions, ids) && next !in ids && next in executions
    ensures Lists(rows + [(next, executions[next])], executions, ids + {next})
  {
    var more := rows + [(next, executions[next])];
    assert more[|rows|].0 == next;
    forall id | id in ids ensures exists i :: 0 <= i < |more| && more[i].0 == id {
      var i :| 0 <= i < |rows| && rows[i].0 == id;
      assert more[i].0 == id;
    }
  }

  lemma ListedIds(rows: seq<(nat, Execution)>, executions: map<nat, Execution>, ids: set<nat>)
    requires Lists(rows, executions, ids)
    ensures ids == set i | 0 <= i < |rows| :: rows[i].0
  {
  }

  lemma RequestedIsDrained(
      executions: map<nat, Execution>, rows: seq<(nat, Execution)>, requestedIds: seq<nat>, run: Run, runId: nat)
    requires Lists(rows, executions, OpenIds(executions, run, runId))
    requires forall id :: id in requestedIds <==> exists i :: 0 <= i < |rows| && rows[i].0 == id && Open(rows[i].1.state)
    ensures forall id :: id in requestedIds <==> id in OpenIds(executions, run, runId)
    ensures forall t: Tables :: t.executions == executions
              ==> DrainedTables(t, run, runId).executions == Requested(executions, set id | id in requestedIds)
  {
  }

  lemma NothingToSupersede(events: seq<Event>, runId: nat)
    requires forall e :: e in events ==> !(e.runId == runId && e.pending)
    ensures SupersededEvents(events, runId) == events
  {
  }
}
