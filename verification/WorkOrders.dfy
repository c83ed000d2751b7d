/** The life of a work order: its status, and the log of status events that tells how it got there. */
module WorkOrders {
  import opened Options
  import opened Text

  datatype Status = Unset | Draft | Open | Closed | UnknownStatus(name: string)
  datatype Result = NoResult | Completed | Rejected | Failed | UnknownResult(name: string)

  datatype Row = Row(state: Status, result: Result)

  /** An `order.status.updated` event. */
  datatype Event = Event(from: Row, to: Row)

  /** The row of one work order and its status events, oldest first. */
  datatype Stored = Stored(row: Row, log: seq<Event>)

  datatype Update = Update(toState: Status, result: Result, skipSame: bool)

  /** What a call finds in other tables, and whether its transaction fails after the row has been written. */
  datatype Surroundings = Surroundings(activeDispatch: bool, writesFail: bool)

  const CREATED := Row(Unset, NoResult)

  function AllowedTransitions(from: Status): set<Status> {
    match from
    case Draft => {Open, Closed}
    case Open => {Closed, Draft}
    case Closed => {Open}
    case _ => {}
  }

  function AllowedCloseResults(from: Status): set<Result> {
    match from
    case Draft => {Rejected}
    case Open => {Completed, Rejected, Failed}
    case _ => {}
  }

  // ----- one call -----

  datatype Report = Changed | Same | Refused

  function ResultAfter(update: Update): Result {
    if update.toState == Closed then update.result else NoResult
  }

  /** What UpdateStatus decides before it writes, from the caller's copy of the row. */
  function Decision(copy: Row, update: Update): Report {
    if update.toState !in {Draft, Open, Closed} then Refused
    else if copy.state == update.toState then if update.skipSame then Same else Refused
    else if update.toState !in AllowedTransitions(copy.state) then Refused
    else if update.toState == Closed && update.result !in AllowedCloseResults(copy.state) then Refused
    else Changed
  }

  /** A dispatch that is still active keeps an open order from going back to draft. */
  predicate HeldByDispatch(copy: Row, update: Update, around: Surroundings) {
    copy.state == Open && update.toState == Draft && around.activeDispatch
  }

  function ReportOf(copy: Row, update: Update, around: Surroundings): Report {
    if Decision(copy, update) == Changed && (HeldByDispatch(copy, update, around) || around.writesFail) then Refused
    else Decision(copy, update)
  }

  function RowAfter(update: Update): Row {
    Row(update.toState, ResultAfter(update))
  }

  function Apply(stored: Stored, copy: Row, update: Update, around: Surroundings): Stored {
    if ReportOf(copy, update, around) == Changed
    then Stored(RowAfter(update), stored.log + [Event(copy, RowAfter(update))])
    else stored
  }

  /** The caller's copy is assigned before the last writes, and keeps what was assigned when these fail. */
  function CopyAfter(copy: Row, update: Update, around: Surroundings): Row {
    if Decision(copy, update) == Changed && !HeldByDispatch(copy, update, around) then RowAfter(update) else copy
  }

  // ----- what the log says -----

  ghost predicate LegalEvent(e: Event) {
    && e.to.state in AllowedTransitions(e.from.state)
    && (e.to.state == Closed ==> e.to.result in AllowedCloseResults(e.from.state))
    && (e.to.state != Closed ==> e.to.result == NoResult)
  }

  /** The events lead from nothing to draft and on, each from where the one before it ended. */
  ghost predicate Path(log: seq<Event>) {
    && log != [] && log[0] == Event(CREATED, Row(Draft, NoResult))
    && (forall i :: 1 <= i < |log| ==> LegalEvent(log[i]) && log[i].from == log[i - 1].to)
  }

  /** Follows the events one by one, as long as each starts where the order is. */
  function Replay(start: Row, log: seq<Event>): Row
    decreases |log|
  {
    if log == [] then start
    else if log[0].from == start then Replay(log[0].to, log[1..])
    else start
  }

  ghost predicate Consistent(stored: Stored) {
    Path(stored.log) && stored.log[|stored.log| - 1].to == stored.row
  }

  lemma {:induction false} PathReplays(start: Row, log: seq<Event>)
    requires log != [] && log[0].from == start && forall i :: 1 <= i < |log| ==> log[i].from == log[i - 1].to
    ensures Replay(start, log) == log[|log| - 1].to
    decreases |log|
  {
    if |log| > 1 {
      assert log[1].from == log[0].to;
      var rest := log[1..];
      forall i | 1 <= i < |rest| ensures rest[i].from == rest[i - 1].to {
        assert log[i + 1].from == log[i + 1 - 1].to;
      }
      PathReplays(log[0].to, rest);
    }
  }

  /** Replaying a consistent log from nothing gives the row. */
  lemma ConsistentReplays(stored: Stored)
    requires Consistent(stored)
    ensures Replay(CREATED, stored.log) == stored.row
  {
    PathReplays(CREATED, stored.log);
  }

  ghost predicate WellFormedRow(row: Row) {
    && row.state in {Draft, Open, Closed}
    && (row.result != NoResult <==> row.state == Closed)
    && row.result in {NoResult, Completed, Rejected, Failed}
  }

  lemma ApplyKeepsWellFormed(stored: Stored, copy: Row, update: Update, around: Surroundings)
    requires WellFormedRow(stored.row)
    ensures WellFormedRow(Apply(stored, copy, update, around).row)
  {
  }

  /** The caller's copy is what the row holds, or the call writes nothing. */
  predicate UpToDate(stored: Stored, copy: Row, update: Update, around: Surroundings) {
    ReportOf(copy, update, around) == Changed ==> copy == stored.row
  }

  lemma ApplyIsConsistentIff(stored: Stored, copy: Row, update: Update, around: Surroundings)
    requires Consistent(stored)
    ensures Consistent(Apply(stored, copy, update, around)) <==> UpToDate(stored, copy, update, around)
  {
    var after := Apply(stored, copy, update, around);
    if ReportOf(copy, update, around) == Changed {
      var n := |stored.log|;
      assert after.log[..n] == stored.log && after.log[n] == Event(copy, RowAfter(update));
      assert after.log[n - 1] == stored.log[n - 1] && stored.log[n - 1].to == stored.row;
      assert LegalEvent(after.log[n]);
      assert forall i :: 0 <= i < n ==> after.log[i] == stored.log[i];
    }
  }

  // ----- whole histories -----

  /** One call of a history: the operation, the copy of the row it is called on, and what it finds. */
  datatype Op = UpdateStatus(update: Update) | Close(result: Result) | Dispatch
  datatype Call = Call(op: Op, copy: Row, around: Surroundings)

  /** Close and dispatch are updates, unless the copy says that there is nothing to do or nothing to be done. */
  predicate Asks(op: Op, copy: Row) {
    match op
    case UpdateStatus(_) => true
    case Close(_) => copy.state != Closed
    case Dispatch => copy.state == Draft
  }

  function UpdateOf(op: Op): Update {
    match op
    case UpdateStatus(update) => update
    case Close(result) => Update(Closed, result, true)
    case Dispatch => Update(Open, NoResult, false)
  }

  function Step(stored: Stored, call: Call): Stored {
    if Asks(call.op, call.copy) then Apply(stored, call.copy, UpdateOf(call.op), call.around) else stored
  }

  predicate Changes(call: Call) {
    Asks(call.op, call.copy) && ReportOf(call.copy, UpdateOf(call.op), call.around) == Changed
  }

  function Creation(): Stored {
    Stored(Row(Draft, NoResult), [Event(CREATED, Row(Draft, NoResult))])
  }

  function History(calls: seq<Call>): Stored {
    if calls == [] then Creation() else Step(History(calls[..|calls| - 1]), calls[|calls| - 1])
  }

  function ChangeCount(calls: seq<Call>): nat {
    if calls == [] then 0
    else ChangeCount(calls[..|calls| - 1]) + if Changes(calls[|calls| - 1]) then 1 else 0
  }

  /**
   * Whatever calls there have been, with copies of any age: the order has a result exactly when it is closed, and there
   * is one status event for its creation and one for each call that reported a change.
   */
  lemma {:induction false} HistoryKeepsRow(calls: seq<Call>)
    ensures WellFormedRow(History(calls).row)
    ensures |History(calls).log| == 1 + ChangeCount(calls)
  {
    if calls != [] {
      var before, call := History(calls[..|calls| - 1]), calls[|calls| - 1];
      HistoryKeepsRow(calls[..|calls| - 1]);
      ApplyKeepsWellFormed(before, call.copy, UpdateOf(call.op), call.around);
    }
  }

  /** Every call that changes the order is made on a copy that is what the row holds at the time. */
  predicate AllUpToDate(calls: seq<Call>) {
    calls == []
    || (AllUpToDate(calls[..|calls| - 1])
        && (Changes(calls[|calls| - 1]) ==> calls[|calls| - 1].copy == History(calls[..|calls| - 1]).row))
  }

  /** Whatever the copies, the last event ends in the row. */
  lemma {:induction false} LastEventIsRow(calls: seq<Call>)
    ensures History(calls).log != []
    ensures History(calls).log[|History(calls).log| - 1].to == History(calls).row
  {
    if calls != [] {
      LastEventIsRow(calls[..|calls| - 1]);
    }
  }

  /** A gap in the log stays there. */
  lemma StaysInconsistent(stored: Stored, call: Call)
    requires Consistent(Step(stored, call))
    requires stored.log != [] && stored.log[|stored.log| - 1].to == stored.row
    ensures Consistent(stored)
  {
    var log, after := stored.log, Step(stored, call).log;
    forall i | 0 <= i < |log| ensures after[i] == log[i] {
    }
    forall i | 1 <= i < |log| ensures LegalEvent(log[i]) && log[i].from == log[i - 1].to {
      assert LegalEvent(after[i]) && after[i].from == after[i - 1].to;
    }
  }

  /**
   * The events form one legal path from nothing through draft that ends in the row, exactly when every call that
   * changed the order was made on an up-to-date copy.
   */
  lemma {:induction false} LogIsPathIff(calls: seq<Call>)
    ensures Consistent(History(calls)) <==> AllUpToDate(calls)
  {
    if calls != [] {
      var before, call := History(calls[..|calls| - 1]), calls[|calls| - 1];
      LogIsPathIff(calls[..|calls| - 1]);
      if Consistent(before) {
        ApplyIsConsistentIff(before, call.copy, UpdateOf(call.op), call.around);
      } else {
        LastEventIsRow(calls[..|calls| - 1]);
        if Consistent(History(calls)) {
          StaysInconsistent(before, call);
        }
      }
    }
  }

  /** In such a history the log replays to the row, and an order that went from draft to closed was rejected. */
  lemma UpToDateHistoryReplays(calls: seq<Call>)
    requires AllUpToDate(calls)
    ensures Replay(CREATED, History(calls).log) == History(calls).row
    ensures forall e :: e in History(calls).log && e.from.state == Draft && e.to.state == Closed ==> e.to.result == Rejected
  {
    LogIsPathIff(calls);
    ConsistentReplays(History(calls));
    var log := History(calls).log;
    forall e | e in log && e.from.state == Draft && e.to.state == Closed ensures e.to.result == Rejected {
      var i :| 0 <= i < |log| && log[i] == e;
      assert i > 0 && LegalEvent(log[i]);
    }
  }

  /**
   * A promotion whose last write fails leaves the copy open over a draft row. Closing that copy as completed then
   * succeeds, and the log has a gap: the order goes from draft to closed without a rejection.
   */
  lemma FailedWriteLeavesCopyAhead()
    ensures var failing := Surroundings(false, true);
            var ahead := CopyAfter(Row(Draft, NoResult), UpdateOf(Dispatch), failing);
            var calls := [Call(Dispatch, Row(Draft, NoResult), failing), Call(Close(Completed), ahead, Surroundings(false, false))];
            History(calls) == Stored(Row(Closed, Completed), Creation().log + [Event(Row(Open, NoResult), Row(Closed, Completed))])
            && !Consistent(History(calls))
  {
    var failing := Surroundings(false, true);
    var ahead := CopyAfter(Row(Draft, NoResult), UpdateOf(Dispatch), failing);
    var first, second := Call(Dispatch, Row(Draft, NoResult), failing), Call(Close(Completed), ahead, Surroundings(false, false));
    assert [first, second][..1] == [first] && [first][..0] == [];
    assert History([]) == Creation();
    assert History([first]) == Creation();
    assert History([first, second]) == Step(History([first]), second);
    assert History([first, second]).log[1].from != History([first, second]).log[0].to;
  }

  // ----- the calls as methods -----

  class Orders {
    var stored: Stored

    constructor (stored: Stored)
      ensures this.stored == stored
    {
      this.stored := stored;
    }
  }

  /** A new work order is a draft, and its creation is its first status event. */
  method CreateWorkOrder(title: string) returns (order: Option<Stored>)
    ensures order.Some? <==> exists c :: c in title && !IsSpace(c)
    ensures order.Some? ==> Consistent(order.value) && order.value == History([]) && WellFormedRow(order.value.row)
    ensures order.Some? ==> order.value == Stored(Row(Draft, NoResult), [Event(Row(Unset, NoResult), Row(Draft, NoResult))])
  {
    BlankIff(title);
    if TrimSpace(title) == "" {
      return None;
    }
    var row := Row(Draft, NoResult);
    var event := Event(CREATED, row);
    return Some(Stored(row, [event]));
  }

  /** A caller's copy of the row of a work order. */
  class FactoryWorkOrder {
    var state: Status
    var result: Result

    constructor (row: Row)
      ensures Copy() == row
    {
      state, result := row.state, row.result;
    }

    function Copy(): Row
      reads this
    {
      Row(state, result)
    }

    /**
     * Drafts are opened or rejected, open orders are closed or, without an active dispatch, go back to draft, and closed
     * orders are opened again. The copy changes before the last writes, and nothing is stored when these fail.
     */
    method UpdateStatus(db: Orders, update: Update, around: Surroundings) returns (changed: bool, ok: bool)
      modifies this, db
      ensures db.stored == Apply(old(db.stored), old(Copy()), update, around)
      ensures Copy() == CopyAfter(old(Copy()), update, around)
      ensures changed <==> ReportOf(old(Copy()), update, around) == Changed
      ensures ok <==> ReportOf(old(Copy()), update, around) != Refused
      ensures Copy() != old(Copy()) <==>
        || (old(state) == Draft && update.toState == Open)
        || (old(state) == Draft && update.toState == Closed && update.result == Rejected)
        || (old(state) == Open && update.toState == Closed && update.result in {Completed, Rejected, Failed})
        || (old(state) == Open && update.toState == Draft && !around.activeDispatch)
        || (old(state) == Closed && update.toState == Open)
      ensures Copy() != old(Copy()) ==>
        Copy() == Row(update.toState, if update.toState == Closed then update.result else NoResult)
      ensures changed <==> Copy() != old(Copy()) && !around.writesFail
      ensures ok <==> || changed
                      || (update.skipSame && update.toState == old(state) && old(state) in {Draft, Open, Closed})
      ensures db.stored == if changed then Stored(Copy(), old(db.stored.log) + [Event(old(Copy()), Copy())]) else old(db.stored)
    {
      var toState := update.toState;
      if toState !in {Draft, Open, Closed} {
        return false, false;
      }
      if state == toState {
        return false, update.skipSame;
      }
      var fromState := state;
      if toState !in AllowedTransitions(fromState) {
        return false, false;
      }
      var nextResult := NoResult;
      if toState == Closed {
        if update.result !in AllowedCloseResults(fromState) {
          return false, false;
        }
        nextResult := update.result;
      }
      var fromResult := result;
      if fromState == Open && toState == Draft && around.activeDispatch {
        return false, false;
      }
      state, result := toState, nextResult;
      if around.writesFail {
        return false, false;
      }
      var event := Event(Row(fromState, fromResult), Row(toState, nextResult));
      db.stored := Stored(Row(toState, nextResult), db.stored.log + [event]);
      return true, true;
    }

    method Close(db: Orders, closeResult: Result, around: Surroundings) returns (ok: bool)
      modifies this, db
      ensures db.stored == Step(old(db.stored), Call(Op.Close(closeResult), old(Copy()), around))
      ensures ok <==> old(state) == Closed || ReportOf(old(Copy()), UpdateOf(Op.Close(closeResult)), around) == Changed
      ensures ok <==> || old(state) == Closed
                      || (!around.writesFail && old(state) == Draft && closeResult == Rejected)
                      || (!around.writesFail && old(state) == Open && closeResult in {Completed, Rejected, Failed})
      ensures ok ==> Copy() == if old(state) == Closed then old(Copy()) else Row(Closed, closeResult)
      ensures db.stored == if ok && old(state) != Closed
                           then Stored(Copy(), old(db.stored.log) + [Event(old(Copy()), Copy())]) else old(db.stored)
    {
      if state == Closed {
        return true;
      }
      var changed;
      changed, ok := UpdateStatus(db, Update(Closed, closeResult, true), around);
    }

    method TransitionOnDispatch(db: Orders, around: Surroundings) returns (ok: bool)
      modifies this, db
      ensures db.stored == Step(old(db.stored), Call(Dispatch, old(Copy()), around))
      ensures ok <==> old(state) == Open || (old(state) == Draft && !around.writesFail)
      ensures ok ==> Copy() == if old(state) == Open then old(Copy()) else Row(Open, NoResult)
      ensures db.stored == if ok && old(state) == Draft
                           then Stored(Copy(), old(db.stored.log) + [Event(old(Copy()), Copy())]) else old(db.stored)
    {
      if state == Open {
        return true;
      }
      if state != Draft {
        return false;
      }
      var changed;
      changed, ok := UpdateStatus(db, Update(Open, NoResult, false), around);
    }
  }
}
