/** Executions of the nodes of a run: their state machine, cancellation of the run, and what is left to do. */
module RunExecutions {

  datatype ExecutionState = Pending | Started | Cancelling | Finished
  datatype Outcome = Unset | Passed | Failed | Cancelled
  datatype RunState = RunPending | RunStarted | RunCancelling | RunFinished

  datatype Execution = Execution(
    workflowId: nat,
    runId: nat,
    state: ExecutionState,
    result: Outcome,
    reason: string,
    message: string)

  datatype QueueItem = QueueItem(workflowId: nat, runId: nat)
  datatype Event = Event(workflowId: nat, runId: nat, executionId: nat, output: string, pending: bool)
  datatype Run = Run(workflowId: nat, state: RunState, result: Outcome, hasErrors: bool)

  datatype Tables = Tables(
    runs: map<nat, Run>,
    executions: map<nat, Execution>,
    queueItems: map<nat, QueueItem>,
    events: seq<Event>)

  // ----- the state machine of executions -----

  /**
   * One call on an execution, at the moment when it writes. `seen` is the state that the call goes by: for Start and
   * Emit that of the caller's copy of the row, for the others what they have read from the row a moment ago, without
   * locking it.
   */
  datatype Call =
    | Start(id: nat, seen: ExecutionState)
    | Emit(id: nat, seen: ExecutionState, outputs: seq<string>)
    | Pass(id: nat, seen: ExecutionState, outputs: seq<string>)
    | Fail(id: nat, seen: ExecutionState, reason: string, message: string)
    | RequestCancellation(id: nat)
    | Cancel(id: nat, seen: ExecutionState)

  function Put(t: Tables, id: nat, e: Execution): Tables {
    t.(executions := t.executions[id := e])
  }

  function OutputEvents(id: nat, e: Execution, outputs: seq<string>): (r: seq<Event>)
    ensures |r| == |outputs|
    ensures forall i :: 0 <= i < |r| ==> r[i] == Event(e.workflowId, e.runId, id, outputs[i], true)
  {
    seq(|outputs|, i requires 0 <= i < |outputs| => Event(e.workflowId, e.runId, id, outputs[i], true))
  }

  predicate Open(state: ExecutionState) {
    state == Pending || state == Started
  }

  /** The row after a call that finishes the execution. */
  function Ended(e: Execution, call: Call): Execution {
    match call
    case Pass(_, _, _) => e.(state := Finished, result := Passed)
    case Fail(_, _, reason, message) => e.(state := Finished, result := Failed, reason := reason, message := message)
    case Cancel(_, _) => e.(state := Finished, result := Cancelled)
    case _ => e
  }

  /** The call has read a state in which it writes. */
  predicate Ends(call: Call) {
    match call
    case Pass(_, seen, _) => Open(seen)
    case Fail(_, seen, _, _) => Open(seen)
    case Cancel(_, seen) => seen != Finished
    case _ => false
  }

  function AfterStart(t: Tables, id: nat, seen: ExecutionState): Tables
    requires id in t.executions
  {
    if seen == Pending then Put(t, id, t.executions[id].(state := Started)) else t
  }

  /** The tables after a call. A call for a row that does not exist changes nothing. */
  function Apply(t: Tables, call: Call): Tables {
    if call.id !in t.executions then t
    else
      var e := t.executions[call.id];
      match call
      case Start(id, seen) => AfterStart(t, id, seen)
      case Emit(id, seen, outputs) => AfterStart(t.(events := t.events + OutputEvents(id, e, outputs)), id, seen)
      case Pass(id, seen, outputs) =>
        if Ends(call) then Put(t.(events := t.events + OutputEvents(id, e, outputs)), id, Ended(e, call)) else t
      case Fail(id, seen, _, _) => if Ends(call) then Put(t, id, Ended(e, call)) else t
      case RequestCancellation(id) => Put(t, id, e.(state := Cancelling))
      case Cancel(id, seen) => if Ends(call) then Put(t, id, Ended(e, call)) else t
  }

  function Rank(state: ExecutionState): nat {
    match state
    case Pending => 0
    case Started => 1
    case Cancelling => 2
    case Finished => 3
  }

  /** Every execution only moves forward, and a finished one does not change at all. */
  ghost predicate Forward(before: Tables, after: Tables) {
    && before.executions.Keys == after.executions.Keys
    && forall id :: id in before.executions ==>
         && Rank(before.executions[id].state) <= Rank(after.executions[id].state)
         && (before.executions[id].state == Finished ==> after.executions[id] == before.executions[id])
  }

  /**
   * What would have to hold in the row when a call writes: a start finds it open, and neither a request to cancel nor a
   * call that finishes it finds it finished already, unless with the very same outcome.
   */
  predicate KeepsForward(t: Tables, call: Call) {
    call.id in t.executions ==>
      var e := t.executions[call.id];
      match call
      case Start(_, seen) => seen == Pending ==> Open(e.state)
      case Emit(_, seen, _) => seen == Pending ==> Open(e.state)
      case RequestCancellation(_) => e.state != Finished
      case _ => Ends(call) ==> e.state != Finished || e == Ended(e, call)
  }

  /** What the call has seen is as good as what the row holds when it writes. */
  predicate UpToDate(t: Tables, call: Call) {
    call.id in t.executions ==>
      var e := t.executions[call.id];
      match call
      case Start(_, seen) => seen == Pending ==> Open(e.state)
      case Emit(_, seen, outputs) => seen == Pending || outputs != [] ==> Open(e.state)
      case Pass(_, seen, _) => Open(seen) ==> Open(e.state)
      case Fail(_, seen, _, _) => Open(seen) ==> Open(e.state)
      case RequestCancellation(_) => e.state != Finished
      case Cancel(_, seen) => seen != Finished ==> e.state != Finished
  }

  lemma UpToDateKeepsForward(t: Tables, call: Call)
    requires UpToDate(t, call)
    ensures KeepsForward(t, call)
  {
  }

  lemma OnlyItsRowChanges(t: Tables, call: Call)
    ensures Apply(t, call).executions.Keys == t.executions.Keys
    ensures forall id :: id in t.executions && id != call.id ==> Apply(t, call).executions[id] == t.executions[id]
  {
  }

  lemma RowMovesForwardIff(t: Tables, call: Call)
    requires call.id in t.executions
    ensures call.id in Apply(t, call).executions
    ensures var before, after := t.executions[call.id], Apply(t, call).executions[call.id];
            KeepsForward(t, call)
            <==> Rank(before.state) <= Rank(after.state) && (before.state == Finished ==> after == before)
  {
  }

  lemma CallMovesForwardIff(t: Tables, call: Call)
    ensures Forward(t, Apply(t, call)) <==> KeepsForward(t, call)
  {
    OnlyItsRowChanges(t, call);
    if call.id in t.executions {
      RowMovesForwardIff(t, call);
    }
  }

  /** The tables after the first n of a series of calls. */
  function After(t: Tables, calls: seq<Call>, n: nat): Tables
    requires n <= |calls|
  {
    if n == 0 then t else Apply(After(t, calls, n - 1), calls[n - 1])
  }

  /** Each of the first n calls found in the row what it needed. */
  predicate AllKeepForward(t: Tables, calls: seq<Call>, n: nat)
    requires n <= |calls|
  {
    n == 0 || (AllKeepForward(t, calls, n - 1) && KeepsForward(After(t, calls, n - 1), calls[n - 1]))
  }

  /** Each of the first n calls was up to date when it was made. */
  predicate AllUpToDate(t: Tables, calls: seq<Call>, n: nat)
    requires n <= |calls|
  {
    n == 0 || (AllUpToDate(t, calls, n - 1) && UpToDate(After(t, calls, n - 1), calls[n - 1]))
  }

  ghost predicate ForwardThroughout(t: Tables, calls: seq<Call>) {
    forall m, n :: 0 <= m <= n <= |calls| ==> Forward(After(t, calls, m), After(t, calls, n))
  }

  lemma ForwardSteps(a: Tables, b: Tables, c: Tables)
    requires Forward(a, b) && Forward(b, c)
    ensures Forward(a, c)
  {
  }

  lemma {:induction false} ForwardBetween(t: Tables, calls: seq<Call>, m: nat, n: nat)
    requires m <= n <= |calls| && AllKeepForward(t, calls, n)
    ensures Forward(After(t, calls, m), After(t, calls, n))
    decreases n
  {
    if m < n {
      var last := After(t, calls, n - 1);
      ForwardBetween(t, calls, m, n - 1);
      CallMovesForwardIff(last, calls[n - 1]);
      ForwardSteps(After(t, calls, m), last, Apply(last, calls[n - 1]));
    }
  }

  lemma {:induction false} KeptForwardBefore(t: Tables, calls: seq<Call>, m: nat, n: nat)
    requires m <= n <= |calls| && AllKeepForward(t, calls, n)
    ensures AllKeepForward(t, calls, m)
    decreases n
  {
    if m < n {
      KeptForwardBefore(t, calls, m, n - 1);
    }
  }

  lemma {:induction false} ForwardIsKept(t: Tables, calls: seq<Call>, n: nat)
    requires n <= |calls| && ForwardThroughout(t, calls)
    ensures AllKeepForward(t, calls, n)
  {
    if n > 0 {
      ForwardIsKept(t, calls, n - 1);
      assert Forward(After(t, calls, n - 1), After(t, calls, n));
      CallMovesForwardIff(After(t, calls, n - 1), calls[n - 1]);
    }
  }

  /**
   * Over every series of calls, in any order and by any number of callers: executions only move forward between any
   * two moments, and a finished execution is final, exactly when every call found in the row what it needed.
   */
  lemma ExecutionsMoveForwardIff(t: Tables, calls: seq<Call>)
    ensures ForwardThroughout(t, calls) <==> AllKeepForward(t, calls, |calls|)
  {
    if ForwardThroughout(t, calls) {
      ForwardIsKept(t, calls, |calls|);
    }
    if AllKeepForward(t, calls, |calls|) {
      forall m, n | 0 <= m <= n <= |calls| ensures Forward(After(t, calls, m), After(t, calls, n)) {
        KeptForwardBefore(t, calls, n, |calls|);
        ForwardBetween(t, calls, m, n);
      }
    }
  }

  lemma {:induction false} AllUpToDateKeepForward(t: Tables, calls: seq<Call>, n: nat)
    requires n <= |calls| && AllUpToDate(t, calls, n)
    ensures AllKeepForward(t, calls, n)
  {
    if n > 0 {
      AllUpToDateKeepForward(t, calls, n - 1);
      UpToDateKeepsForward(After(t, calls, n - 1), calls[n - 1]);
    }
  }

  /** In particular when every call was up to date. */
  lemma UpToDateCallsMoveForward(t: Tables, calls: seq<Call>)
    requires AllUpToDate(t, calls, |calls|)
    ensures ForwardThroughout(t, calls)
  {
    AllUpToDateKeepForward(t, calls, |calls|);
    ExecutionsMoveForwardIff(t, calls);
  }

  // ----- what is in a row after a series of calls -----

  /** The call passes, fails or cancels the execution, going by what it has read. */
  predicate Completes(call: Call, id: nat) {
    call.id == id
    && ((call.Pass? && call.seen in {Pending, Started}) || (call.Fail? && call.seen in {Pending, Started})
        || (call.Cancel? && call.seen in {Pending, Started, Cancelling}))
  }

  /** The call changes the state of the execution. */
  predicate ChangesState(call: Call, id: nat) {
    || Completes(call, id)
    || (call.id == id && (call.RequestCancellation? || ((call.Start? || call.Emit?) && call.seen == Pending)))
  }

  predicate IsFailure(call: Call, id: nat) {
    Completes(call, id) && call.Fail?
  }

  lemma RowAfterCall(t: Tables, call: Call, id: nat)
    requires id in t.executions
    ensures id in Apply(t, call).executions
    ensures var e, f := t.executions[id], Apply(t, call).executions[id];
            && f.workflowId == e.workflowId && f.runId == e.runId
            && (if Completes(call, id) then f.result == (if call.Pass? then Passed else if call.Fail? then Failed else Cancelled)
                else f.result == e.result)
            && (if IsFailure(call, id) then f.reason == call.reason && f.message == call.message
                else f.reason == e.reason && f.message == e.message)
            && (if ChangesState(call, id)
                then f.state == (if Completes(call, id) then Finished
                                 else if call.RequestCancellation? then Cancelling else Started)
                else f.state == e.state)
  {
  }

  /** The events that a call adds: one for each output, of the execution and its run, all pending. */
  lemma EventsAfterCall(t: Tables, call: Call, i: nat)
    requires call.id in t.executions
    ensures var e, events := t.executions[call.id], Apply(t, call).events;
            var outputs := if call.Emit? || (call.Pass? && call.seen in {Pending, Started}) then call.outputs else [];
            && |events| == |t.events| + |outputs|
            && (i < |t.events| ==> events[i] == t.events[i])
            && (|t.events| <= i < |events| ==>
                  events[i] == Event(e.workflowId, e.runId, call.id, outputs[i - |t.events|], true))
  {
  }

  /** Over every series of calls the result of an execution is that of the last call that completed it, if any has. */
  lemma {:induction false} ResultIsOfLastCompletion(t: Tables, calls: seq<Call>, id: nat, k: int, n: nat)
    requires id in t.executions && -1 <= k < n <= |calls| && (k >= 0 ==> Completes(calls[k], id))
    requires forall j :: k < j < n ==> !Completes(calls[j], id)
    ensures id in After(t, calls, n).executions
    ensures After(t, calls, n).executions[id].result
            == if k < 0 then t.executions[id].result
               else if calls[k].Pass? then Passed else if calls[k].Fail? then Failed else Cancelled
    decreases n
  {
    if n > 0 {
      RowsStay(t, calls, id, n - 1);
      RowAfterCall(After(t, calls, n - 1), calls[n - 1], id);
      if k < n - 1 {
        ResultIsOfLastCompletion(t, calls, id, k, n - 1);
      }
    }
  }

  /** Its reason and message are those of the last call that failed it. */
  lemma {:induction false} ReasonIsOfLastFailure(t: Tables, calls: seq<Call>, id: nat, k: int, n: nat)
    requires id in t.executions && -1 <= k < n <= |calls| && (k >= 0 ==> IsFailure(calls[k], id))
    requires forall j :: k < j < n ==> !IsFailure(calls[j], id)
    ensures id in After(t, calls, n).executions
    ensures var e := After(t, calls, n).executions[id];
            if k < 0 then e.reason == t.executions[id].reason && e.message == t.executions[id].message
            else e.reason == calls[k].reason && e.message == calls[k].message
    decreases n
  {
    if n > 0 {
      RowsStay(t, calls, id, n - 1);
      RowAfterCall(After(t, calls, n - 1), calls[n - 1], id);
      if k < n - 1 {
        ReasonIsOfLastFailure(t, calls, id, k, n - 1);
      }
    }
  }

  /** Its state is what the last call made it that changed it. */
  lemma {:induction false} StateIsOfLastChange(t: Tables, calls: seq<Call>, id: nat, k: int, n: nat)
    requires id in t.executions && -1 <= k < n <= |calls| && (k >= 0 ==> ChangesState(calls[k], id))
    requires forall j :: k < j < n ==> !ChangesState(calls[j], id)
    ensures id in After(t, calls, n).executions
    ensures After(t, calls, n).executions[id].state
            == if k < 0 then t.executions[id].state
               else if Completes(calls[k], id) then Finished
               else if calls[k].RequestCancellation? then Cancelling else Started
    decreases n
  {
    if n > 0 {
      RowsStay(t, calls, id, n - 1);
      RowAfterCall(After(t, calls, n - 1), calls[n - 1], id);
      if k < n - 1 {
        StateIsOfLastChange(t, calls, id, k, n - 1);
      }
    }
  }

  lemma {:induction false} RowsStay(t: Tables, calls: seq<Call>, id: nat, n: nat)
    requires id in t.executions && n <= |calls|
    ensures id in After(t, calls, n).executions
  {
    if n > 0 {
      RowsStay(t, calls, id, n - 1);
    }
  }

  // ----- draining a run -----

  predicate OfRun(e: Execution, run: Run, runId: nat) {
    e.workflowId == run.workflowId && e.runId == runId
  }

  function Superseded(e: Event, runId: nat): Event {
    if e.runId == runId && e.pending then e.(pending := false) else e
  }

  function OpenIds(executions: map<nat, Execution>, run: Run, runId: nat): set<nat> {
    set id | id in executions && OfRun(executions[id], run, runId) && Open(executions[id].state)
  }

  function Requested(executions: map<nat, Execution>, ids: set<nat>): map<nat, Execution> {
    map id | id in executions :: if id in ids then executions[id].(state := Cancelling) else executions[id]
  }

  /** The tables after the executions that a drain has listed are asked to cancel, whatever has become of them since, the
      run's queue is emptied and its pending events are closed. */
  function DrainedFrom(t: Tables, listed: set<nat>, run: Run, runId: nat): Tables {
    t.(executions := Requested(t.executions, listed),
       queueItems := map id | id in t.queueItems && t.queueItems[id] != QueueItem(run.workflowId, runId) :: t.queueItems[id],
       events := seq(|t.events|, i requires 0 <= i < |t.events| => Superseded(t.events[i], runId)))
  }

  /** The same when the list is up to date. */
  function DrainedTables(t: Tables, run: Run, runId: nat): Tables {
    DrainedFrom(t, OpenIds(t.executions, run, runId), run, runId)
  }

  predicate Active(state: ExecutionState) {
    state != Finished
  }

  function ActiveExecutions(t: Tables, runId: nat): set<nat> {
    set id | id in t.executions && t.executions[id].runId == runId && Active(t.executions[id].state)
  }

  ghost predicate HasQueueItems(t: Tables, runId: nat) {
    exists id :: id in t.queueItems && t.queueItems[id].runId == runId
  }

  ghost predicate HasPendingEvents(t: Tables, runId: nat) {
    exists i :: 0 <= i < |t.events| && t.events[i].runId == runId && t.events[i].pending
  }

  /** Nothing of the run can start or continue: what is still active is waiting to be cancelled. */
  ghost predicate Drained(t: Tables, runId: nat) {
    && !HasQueueItems(t, runId)
    && !HasPendingEvents(t, runId)
    && forall id :: id in ActiveExecutions(t, runId) ==> t.executions[id].state == Cancelling
  }

  /** An open execution of the run that is not on the list, or a queue item of the run with another workflow's id. */
  ghost predicate Misses(t: Tables, listed: set<nat>, run: Run, runId: nat) {
    || (exists id :: && id in t.executions && t.executions[id].runId == runId && Open(t.executions[id].state)
                     && id !in listed)
    || (exists id :: id in t.queueItems && t.queueItems[id].runId == runId && t.queueItems[id].workflowId != run.workflowId)
  }

  /** Draining leaves nothing that can start exactly when it misses nothing. */
  lemma DrainingDrainsIff(t: Tables, listed: set<nat>, run: Run, runId: nat)
    ensures Drained(DrainedFrom(t, listed, run, runId), runId) <==> !Misses(t, listed, run, runId)
  {
    var after := DrainedFrom(t, listed, run, runId);
    assert forall i :: 0 <= i < |t.events| ==> after.events[i] == Superseded(t.events[i], runId);
    if !Misses(t, listed, run, runId) {
      forall id | id in ActiveExecutions(after, runId) ensures after.executions[id].state == Cancelling {
        assert id in t.executions && t.executions[id].runId == runId;
      }
      assert !HasQueueItems(after, runId);
    } else if id :| && id in t.executions && t.executions[id].runId == runId && Open(t.executions[id].state)
                    && id !in listed {
      assert id in ActiveExecutions(after, runId);
    } else {
      var id :| id in t.queueItems && t.queueItems[id].runId == runId && t.queueItems[id].workflowId != run.workflowId;
      assert id in after.queueItems;
    }
  }

  /** Queue items and open executions that carry the run's id but another workflow's. */
  ghost predicate HasForeignWork(t: Tables, run: Run, runId: nat) {
    || (exists id :: && id in t.executions && t.executions[id].runId == runId
                     && t.executions[id].workflowId != run.workflowId && Open(t.executions[id].state))
    || (exists id :: id in t.queueItems && t.queueItems[id].runId == runId && t.queueItems[id].workflowId != run.workflowId)
  }

  /** Draining selects by workflow and run, looking for open work by run alone: an up-to-date list misses foreign work only. */
  lemma UpToDateListMissesIff(t: Tables, run: Run, runId: nat)
    ensures Misses(t, OpenIds(t.executions, run, runId), run, runId) <==> HasForeignWork(t, run, runId)
  {
    if HasForeignWork(t, run, runId) {
      if id :| && id in t.executions && t.executions[id].runId == runId
               && t.executions[id].workflowId != run.workflowId && Open(t.executions[id].state) {
        assert id !in OpenIds(t.executions, run, runId);
      }
    }
  }

  /** Draining moves no execution back exactly when none on its list has finished since it was listed. */
  lemma DrainingMovesForwardIff(t: Tables, listed: set<nat>, run: Run, runId: nat)
    ensures Forward(t, DrainedFrom(t, listed, run, runId))
            <==> forall id :: id in listed && id in t.executions ==> t.executions[id].state != Finished
  {
    var after := DrainedFrom(t, listed, run, runId);
    forall id | id in listed && id in t.executions && t.executions[id].state == Finished
      ensures Rank(after.executions[id].state) < Rank(t.executions[id].state)
    {
    }
  }

  /** An execution that is created after the drain has listed the others is missed. */
  lemma DrainMissesLaterExecution(t: Tables, id: nat, e: Execution, run: Run, runId: nat)
    requires id !in t.executions && OfRun(e, run, runId) && Open(e.state)
    ensures !Drained(DrainedFrom(Put(t, id, e), OpenIds(t.executions, run, runId), run, runId), runId)
  {
    var later, listed := Put(t, id, e), OpenIds(t.executions, run, runId);
    assert id in later.executions && id !in listed;
    DrainingDrainsIff(later, listed, run, runId);
  }

  /** An execution that passes after the drain has listed it is put back to cancelling, and keeps the result. */
  lemma DrainPutsBackFinished(t: Tables, id: nat, run: Run, runId: nat)
    requires id in OpenIds(t.executions, run, runId)
    ensures var passed := Apply(t, Pass(id, t.executions[id].state, []));
            var drained := DrainedFrom(passed, OpenIds(t.executions, run, runId), run, runId);
            && passed.executions[id] == t.executions[id].(state := Finished, result := Passed)
            && drained.executions[id] == t.executions[id].(state := Cancelling, result := Passed)
            && !Forward(passed, drained)
  {
    var passed := Apply(t, Pass(id, t.executions[id].state, []));
    DrainingMovesForwardIff(passed, OpenIds(t.executions, run, runId), run, runId);
  }

  /** What a drain leaves as it is, and what it changes: the state of the executions on its list, the queue items of its
      workflow and run, and whether the events of its run are pending. */
  lemma DrainChanges(t: Tables, listed: set<nat>, run: Run, runId: nat, id: nat, i: nat)
    ensures var after := DrainedFrom(t, listed, run, runId);
            && after.runs == t.runs
            && (id in after.executions <==> id in t.executions)
            && (id in t.executions ==>
                  after.executions[id] == if id in listed then t.executions[id].(state := Cancelling) else t.executions[id])
            && (id in after.queueItems
                <==> id in t.queueItems
                     && !(t.queueItems[id].workflowId == run.workflowId && t.queueItems[id].runId == runId))
            && (id in after.queueItems ==> after.queueItems[id] == t.queueItems[id])
            && |after.events| == |t.events|
            && (i < |t.events| ==>
                  after.events[i] == t.events[i].(pending := t.events[i].pending && t.events[i].runId != runId))
  {
  }

  // ----- what a drained run can still do -----

  function EventsOf(t: Tables, runId: nat): set<nat> {
    set i | 0 <= i < |t.events| && t.events[i].runId == runId
  }

  predicate StartsIt(call: Call) {
    (call.Start? || call.Emit?) && call.seen == Pending
  }

  predicate AddsEvents(call: Call) {
    ((call.Pass? && Open(call.seen)) || call.Emit?) && call.outputs != []
  }

  /**
   * A call that would continue an execution of the run: a start that has seen it pending, a pass with outputs that has
   * seen it open, or any outputs emitted before it ends.
   */
  predicate Revives(t: Tables, call: Call, runId: nat) {
    && call.id in t.executions && t.executions[call.id].runId == runId
    && (StartsIt(call) || AddsEvents(call))
  }

  lemma StaysDrainedIff(t: Tables, call: Call, runId: nat)
    requires Drained(t, runId)
    ensures Drained(Apply(t, call), runId) <==> !Revives(t, call, runId)
  {
    var after := Apply(t, call);
    if Revives(t, call, runId) {
      if StartsIt(call) {
        assert after.executions[call.id].state == Started;
        assert call.id in ActiveExecutions(after, runId);
      } else {
        EventsAreAdded(t, call);
      }
    } else {
      forall id | id in ActiveExecutions(after, runId) ensures after.executions[id].state == Cancelling {
        assert id in t.executions && t.executions[id].runId == runId;
        assert id != call.id ==> id in ActiveExecutions(t, runId);
        assert t.executions[id].state != Finished ==> id in ActiveExecutions(t, runId);
      }
      NoEventInDrainedRun(t, call, runId);
    }
  }

  lemma EventsAreAdded(t: Tables, call: Call)
    requires call.id in t.executions && AddsEvents(call)
    ensures HasPendingEvents(Apply(t, call), t.executions[call.id].runId)
  {
    var after := Apply(t, call);
    assert after.events[|t.events|] == OutputEvents(call.id, t.executions[call.id], call.outputs)[0];
  }

  lemma NoEventInDrainedRun(t: Tables, call: Call, runId: nat)
    requires Drained(t, runId) && !Revives(t, call, runId)
    ensures EventsOf(Apply(t, call), runId) == EventsOf(t, runId)
    ensures t.events <= Apply(t, call).events
    ensures !HasPendingEvents(Apply(t, call), runId)
  {
    var after := Apply(t, call);
    if call.id in t.executions && AddsEvents(call) {
      var e := t.executions[call.id];
      assert forall i :: |t.events| <= i < |after.events| ==> after.events[i].runId == e.runId;
    }
  }

  /** The run was drained after each of the first n calls. */
  ghost predicate DrainedThroughout(t: Tables, calls: seq<Call>, runId: nat, n: nat)
    requires n <= |calls|
  {
    Drained(After(t, calls, n), runId) && (n > 0 ==> DrainedThroughout(t, calls, runId, n - 1))
  }

  /** None of the first n calls revived an execution of the run. */
  predicate NoneRevives(t: Tables, calls: seq<Call>, runId: nat, n: nat)
    requires n <= |calls|
  {
    n == 0 || (NoneRevives(t, calls, runId, n - 1) && !Revives(After(t, calls, n - 1), calls[n - 1], runId))
  }

  lemma DrainedStep(t: Tables, call: Call, runId: nat)
    ensures Drained(t, runId) ==> (Drained(Apply(t, call), runId) <==> !Revives(t, call, runId))
    ensures Drained(t, runId) && !Revives(t, call, runId) ==> EventsOf(Apply(t, call), runId) == EventsOf(t, runId)
  {
    if Drained(t, runId) {
      StaysDrainedIff(t, call, runId);
      if !Revives(t, call, runId) {
        NoEventInDrainedRun(t, call, runId);
      }
    }
  }

  /**
   * A drained run stays drained throughout a series of calls exactly when none of them revives one of its executions.
   * Until then the run gets no event.
   */
  lemma {:induction false} DrainedThroughoutIff(t: Tables, calls: seq<Call>, runId: nat, n: nat)
    requires Drained(t, runId) && n <= |calls|
    ensures DrainedThroughout(t, calls, runId, n) <==> NoneRevives(t, calls, runId, n)
    ensures NoneRevives(t, calls, runId, n) ==> EventsOf(After(t, calls, n), runId) == EventsOf(t, runId)
  {
    if n > 0 {
      DrainedThroughoutIff(t, calls, runId, n - 1);
      DrainedStep(After(t, calls, n - 1), calls[n - 1], runId);
    }
  }

  /** The call asks an execution of the run to cancel. A finished one is active again then. */
  predicate Requests(t: Tables, call: Call, runId: nat) {
    call.RequestCancellation? && call.id in t.executions && t.executions[call.id].runId == runId
  }

  /** The active executions of the run after a call that does not revive one of them. */
  function StillAfter(t: Tables, active: set<nat>, call: Call, runId: nat): set<nat> {
    (active - if Ends(call) then {call.id} else {}) + if Requests(t, call, runId) then {call.id} else {}
  }

  /** Those of the active executions that the first n calls leave active, and those that they put back. */
  function StillActive(t: Tables, calls: seq<Call>, runId: nat, n: nat): set<nat>
    requires n <= |calls|
  {
    if n == 0 then ActiveExecutions(t, runId) else StillAfter(t, StillActive(t, calls, runId, n - 1), calls[n - 1], runId)
  }

  lemma ActiveAfterCall(t: Tables, call: Call, runId: nat)
    requires Drained(t, runId) && !Revives(t, call, runId)
    ensures ActiveExecutions(Apply(t, call), runId) == StillAfter(t, ActiveExecutions(t, runId), call, runId)
  {
    var before, after := ActiveExecutions(t, runId), ActiveExecutions(Apply(t, call), runId);
    forall id ensures id in after <==> id in StillAfter(t, before, call, runId) {
      if id == call.id && id in t.executions && t.executions[id].runId == runId {
        assert Active(t.executions[id].state) ==> id in before;
      }
    }
  }

  /** No call moves an execution to another run. */
  lemma {:induction false} CallsKeepRunIds(t: Tables, calls: seq<Call>, call: Call, runId: nat, n: nat)
    requires n <= |calls|
    ensures Requests(After(t, calls, n), call, runId) <==> Requests(t, call, runId)
  {
    if n > 0 {
      CallsKeepRunIds(t, calls, call, runId, n - 1);
    }
  }

  /**
   * Over every series of calls that keeps a drained run drained, with readings of any age: what is active is what was
   * active before and has not been ended since, and what a request has put back since.
   */
  lemma {:induction false} ActiveUntilEnded(t: Tables, calls: seq<Call>, runId: nat, n: nat)
    requires Drained(t, runId) && n <= |calls| && NoneRevives(t, calls, runId, n)
    ensures Drained(After(t, calls, n), runId)
    ensures ActiveExecutions(After(t, calls, n), runId) == StillActive(t, calls, runId, n)
  {
    if n > 0 {
      ActiveUntilEnded(t, calls, runId, n - 1);
      StaysDrainedIff(After(t, calls, n - 1), calls[n - 1], runId);
      ActiveAfterCall(After(t, calls, n - 1), calls[n - 1], runId);
      CallsKeepRunIds(t, calls, calls[n - 1], runId, n - 1);
    }
  }

  /** A Cancel that ends an active execution of the run. */
  predicate Cancels(t: Tables, call: Call, runId: nat) {
    call.Cancel? && Ends(call) && call.id in ActiveExecutions(t, runId)
  }

  /** A worker that has read an active execution of the run before it was asked to cancel, and fails or passes it now. */
  predicate EndsLate(t: Tables, call: Call, runId: nat) {
    !call.Cancel? && Ends(call) && call.id in ActiveExecutions(t, runId)
  }

  /** A request to cancel an execution of the run that has finished. */
  predicate PutsBack(t: Tables, call: Call, runId: nat) {
    Requests(t, call, runId) && call.id !in ActiveExecutions(t, runId)
  }

  /** How many of the first n calls did this to the tables that they found. */
  ghost function Count(t: Tables, calls: seq<Call>, runId: nat, n: nat, counted: (Tables, Call, nat) -> bool): nat
    requires n <= |calls|
  {
    if n == 0 then 0
    else Count(t, calls, runId, n - 1, counted) + if counted(After(t, calls, n - 1), calls[n - 1], runId) then 1 else 0
  }

  lemma OneFewerOrMore(active: set<nat>, id: nat)
    ensures |active - {id}| == |active| - if id in active then 1 else 0
    ensures |active + {id}| == |active| + if id in active then 0 else 1
  {
    if id in active {
      assert active == (active - {id}) + {id} == active + {id};
    } else {
      assert active - {id} == active;
    }
  }

  lemma StillCount(t: Tables, active: set<nat>, call: Call, runId: nat)
    ensures |StillAfter(t, active, call, runId)|
            == |active| - (if Ends(call) && call.id in active then 1 else 0)
               + (if Requests(t, call, runId) && call.id !in active then 1 else 0)
  {
    OneFewerOrMore(active, call.id);
    assert active - {} == active;
    if Ends(call) {
      assert StillAfter(t, active, call, runId) == active - {call.id};
    } else if Requests(t, call, runId) {
      assert StillAfter(t, active, call, runId) == active + {call.id};
    } else {
      assert StillAfter(t, active, call, runId) == active;
    }
  }

  /**
   * Over every such series the number of active executions falls by one with each effective Cancel, stale or not, and
   * with each late end, and rises by one with each execution put back; nothing else changes it.
   */
  lemma {:induction false} CancellationProgress(t: Tables, calls: seq<Call>, runId: nat, n: nat)
    requires Drained(t, runId) && n <= |calls| && NoneRevives(t, calls, runId, n)
    ensures |ActiveExecutions(After(t, calls, n), runId)|
            == |ActiveExecutions(t, runId)| - Count(t, calls, runId, n, Cancels) - Count(t, calls, runId, n, EndsLate)
               + Count(t, calls, runId, n, PutsBack)
  {
    if n > 0 {
      var before := After(t, calls, n - 1);
      CancellationProgress(t, calls, runId, n - 1);
      ActiveUntilEnded(t, calls, runId, n - 1);
      ActiveAfterCall(before, calls[n - 1], runId);
      StillCount(before, ActiveExecutions(before, runId), calls[n - 1], runId);
    }
  }

  function CancelledIds(calls: seq<Call>, n: nat): set<nat>
    requires n <= |calls|
  {
    if n == 0 then {}
    else CancelledIds(calls, n - 1) + if calls[n - 1].Cancel? && Ends(calls[n - 1]) then {calls[n - 1].id} else {}
  }

  lemma UpToDateCallOnlyCancels(t: Tables, call: Call, runId: nat)
    requires Drained(t, runId) && UpToDate(t, call)
    ensures !Revives(t, call, runId) && !EndsLate(t, call, runId) && !PutsBack(t, call, runId)
    ensures StillAfter(t, ActiveExecutions(t, runId), call, runId)
            == ActiveExecutions(t, runId) - if call.Cancel? && Ends(call) then {call.id} else {}
  {
    assert Revives(t, call, runId) || EndsLate(t, call, runId) ==> call.id in ActiveExecutions(t, runId);
    assert Requests(t, call, runId) ==> call.id in ActiveExecutions(t, runId);
  }

  /** When all calls are up to date none revives or puts back an execution, and only a Cancel ends one. */
  lemma {:induction false} UpToDateCallsOnlyCancel(t: Tables, calls: seq<Call>, runId: nat, n: nat)
    requires Drained(t, runId) && n <= |calls| && AllUpToDate(t, calls, n)
    ensures NoneRevives(t, calls, runId, n)
    ensures StillActive(t, calls, runId, n) == ActiveExecutions(t, runId) - CancelledIds(calls, n)
  {
    if n > 0 {
      var before := After(t, calls, n - 1);
      UpToDateCallsOnlyCancel(t, calls, runId, n - 1);
      ActiveUntilEnded(t, calls, runId, n - 1);
      UpToDateCallOnlyCancels(before, calls[n - 1], runId);
      CallsKeepRunIds(t, calls, calls[n - 1], runId, n - 1);
    }
  }

  /** What a drain asks to cancel, one request after the other. */
  function RequestsFor(ids: seq<nat>): seq<Call> {
    seq(|ids|, i requires 0 <= i < |ids| => RequestCancellation(ids[i]))
  }

  lemma DrainingAgainWithEmptyList(t: Tables, run: Run, runId: nat)
    requires Drained(t, runId)
    ensures DrainedFrom(t, {}, run, runId) == t
  {
    var after := DrainedFrom(t, {}, run, runId);
    assert after.executions == t.executions && after.queueItems == t.queueItems && after.events == t.events;
  }

  lemma OneMoreRequest(t: Tables, listed: set<nat>, id: nat, run: Run, runId: nat)
    ensures Apply(DrainedFrom(t, listed, run, runId), RequestCancellation(id)) == DrainedFrom(t, listed + {id}, run, runId)
  {
    assert Apply(DrainedFrom(t, listed, run, runId), RequestCancellation(id)).executions
           == Requested(t.executions, listed + {id});
  }

  /** On a drained run another drain is nothing but the requests for its list, however old that is. */
  lemma {:induction false} DrainingAgainOnlyRequests(t: Tables, ids: seq<nat>, run: Run, runId: nat, n: nat)
    requires Drained(t, runId) && n <= |ids|
    ensures After(t, RequestsFor(ids), n) == DrainedFrom(t, set i | 0 <= i < n :: ids[i], run, runId)
  {
    if n == 0 {
      DrainingAgainWithEmptyList(t, run, runId);
    } else {
      var listed := set i | 0 <= i < n - 1 :: ids[i];
      DrainingAgainOnlyRequests(t, ids, run, runId, n - 1);
      OneMoreRequest(t, listed, ids[n - 1], run, runId);
      assert listed + {ids[n - 1]} == set i | 0 <= i < n :: ids[i];
    }
  }

  /**
   * A worker that read an execution while it was open, and passes it after its run was drained, adds events to a run that
   * was to be cancelled. One that read it while it was pending, and starts it then, brings it back first. One that emits
   * outputs adds events in any case.
   */
  lemma StaleCallsRevive(t: Tables, id: nat, output: string)
    requires id in t.executions && t.executions[id].state == Cancelling
    ensures var event := Event(t.executions[id].workflowId, t.executions[id].runId, id, output, true);
            && Apply(t, Pass(id, Started, [output])).events == t.events + [event]
            && After(t, [Start(id, Pending), Pass(id, Started, [output])], 2).events == t.events + [event]
            && UpToDate(Apply(t, Start(id, Pending)), Pass(id, Started, [output]))
            && Apply(t, Emit(id, Cancelling, [output])).events == t.events + [event]
  {
    var calls := [Start(id, Pending), Pass(id, Started, [output])];
    var e := t.executions[id];
    var event := Event(e.workflowId, e.runId, id, output, true);
    assert OutputEvents(id, e, [output]) == [event] && OutputEvents(id, e.(state := Started), [output]) == [event];
    assert After(t, calls, 1) == Apply(t, calls[0]) == Put(t, id, e.(state := Started));
    assert After(t, calls, 2) == Apply(After(t, calls, 1), calls[1]);
  }

  // ----- the run's result -----

  ghost predicate HasOpenWork(t: Tables, runId: nat) {
    ActiveExecutions(t, runId) != {} || HasQueueItems(t, runId) || HasPendingEvents(t, runId)
  }

  ghost predicate HasResult(t: Tables, runId: nat, result: Outcome) {
    exists id :: id in t.executions && t.executions[id].runId == runId && t.executions[id].result == result
  }

  /** The tables after a user cancels a run: the run is marked and drained in one transaction. */
  function CancelledFrom(t: Tables, listed: set<nat>, runId: nat): Tables
    requires runId in t.runs
  {
    var run := t.runs[runId];
    if run.state == RunFinished then t
    else DrainedFrom(t, listed, run, runId).(runs := t.runs[runId := run.(state := RunCancelling)])
  }

  function CancelledTables(t: Tables, runId: nat): Tables
    requires runId in t.runs
  {
    CancelledFrom(t, OpenIds(t.executions, t.runs[runId], runId), runId)
  }

  /** Cancelling a finished run changes nothing. Any other is drained and marked, with nothing else changed in its row. */
  lemma CancellingIs(t: Tables, listed: set<nat>, runId: nat)
    requires runId in t.runs
    ensures t.runs[runId].state == RunFinished ==> CancelledFrom(t, listed, runId) == t
    ensures t.runs[runId].state != RunFinished ==>
              CancelledFrom(t, listed, runId)
              == DrainedFrom(t, listed, t.runs[runId], runId).(
                   runs := t.runs[runId := Run(t.runs[runId].workflowId, RunCancelling, t.runs[runId].result,
                                               t.runs[runId].hasErrors)])
  {
  }

  lemma {:induction false} CallsKeepRuns(t: Tables, calls: seq<Call>, n: nat)
    requires n <= |calls|
    ensures After(t, calls, n).runs == t.runs
  {
    if n > 0 {
      CallsKeepRuns(t, calls, n - 1);
    }
  }

  lemma CancellingDrainsIff(t: Tables, listed: set<nat>, runId: nat)
    requires runId in t.runs && t.runs[runId].state != RunFinished
    ensures Drained(CancelledFrom(t, listed, runId), runId) <==> !Misses(t, listed, t.runs[runId], runId)
    ensures CancelledFrom(t, listed, runId).runs[runId].state == RunCancelling
    ensures EventsOf(CancelledFrom(t, listed, runId), runId) == EventsOf(t, runId)
  {
    var drained := DrainedFrom(t, listed, t.runs[runId], runId);
    DrainingDrainsIff(t, listed, t.runs[runId], runId);
    assert ActiveExecutions(CancelledFrom(t, listed, runId), runId) == ActiveExecutions(drained, runId);
  }

  /** A run that is cancelled stays drained throughout what follows exactly when its drain misses nothing and no call revives
      one of its executions. */
  lemma CancelledRunStaysDrainedIff(t: Tables, listed: set<nat>, runId: nat, calls: seq<Call>)
    requires runId in t.runs && t.runs[runId].state != RunFinished
    ensures var cancelled := CancelledFrom(t, listed, runId);
            DrainedThroughout(cancelled, calls, runId, |calls|)
            <==> !Misses(t, listed, t.runs[runId], runId) && NoneRevives(cancelled, calls, runId, |calls|)
  {
    var cancelled := CancelledFrom(t, listed, runId);
    CancellingDrainsIff(t, listed, runId);
    if DrainedThroughout(cancelled, calls, runId, |calls|) {
      DrainedFromTheStart(cancelled, calls, runId, |calls|);
    }
    if Drained(cancelled, runId) {
      DrainedThroughoutIff(cancelled, calls, runId, |calls|);
    }
  }

  lemma {:induction false} DrainedFromTheStart(t: Tables, calls: seq<Call>, runId: nat, n: nat)
    requires n <= |calls| && DrainedThroughout(t, calls, runId, n)
    ensures Drained(t, runId)
  {
    if n > 0 {
      DrainedFromTheStart(t, calls, runId, n - 1);
    }
  }

  /**
   * The end of a cancelled run that stays drained, whatever calls follow and however old their readings: it is still
   * marked as cancelling, has got no event, and has no open work left exactly when every execution that was active has
   * been ended and none has been put back since.
   */
  lemma CancelledRunEndsIff(t: Tables, listed: set<nat>, runId: nat, calls: seq<Call>)
    requires runId in t.runs && t.runs[runId].state != RunFinished
    requires !Misses(t, listed, t.runs[runId], runId)
    requires NoneRevives(CancelledFrom(t, listed, runId), calls, runId, |calls|)
    ensures var cancelled := CancelledFrom(t, listed, runId);
            var end := After(cancelled, calls, |calls|);
            && runId in end.runs && end.runs[runId].state == RunCancelling
            && EventsOf(end, runId) == EventsOf(t, runId)
            && (!HasOpenWork(end, runId) <==> StillActive(cancelled, calls, runId, |calls|) == {})
  {
    var cancelled := CancelledFrom(t, listed, runId);
    CancellingDrainsIff(t, listed, runId);
    DrainedThroughoutIff(cancelled, calls, runId, |calls|);
    CallsKeepRuns(cancelled, calls, |calls|);
    ActiveUntilEnded(cancelled, calls, runId, |calls|);
  }
}
