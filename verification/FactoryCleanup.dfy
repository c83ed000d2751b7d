/** Deleting everything a factory owns, a bounded number of rows at a time, under foreign keys that restrict. */
module FactoryCleanup {
  import opened BoundedSets
  import opened Options

  datatype Table =
    | QueueItems | Executions | Dispatches | Events | Checks | Assignees | Orders | Lines
    | Factories | Artifacts | Comments | Canvases

  datatype Key = Key(table: Table, id: nat)

  /** The foreign keys of a row. Every one of them restricts the deletion of the row it refers to. */
  datatype Row = Row(factory: Option<nat>, order: Option<nat>, line: Option<nat>, dispatch: Option<nat>)

  type Rows = map<Key, Row>

  function Refs(row: Row): set<Key> {
    (if row.factory.Some? then {Key(Factories, row.factory.value)} else {})
    + (if row.order.Some? then {Key(Orders, row.order.value)} else {})
    + (if row.line.Some? then {Key(Lines, row.line.value)} else {})
    + (if row.dispatch.Some? then {Key(Dispatches, row.dispatch.value)} else {})
  }

  /** Which foreign keys the rows of a table have. */
  predicate Shaped(table: Table, row: Row) {
    && (row.dispatch.Some? ==> table in {QueueItems, Executions})
    && (row.line.Some? ==> table in {QueueItems, Executions, Dispatches})
    && (row.order.Some? ==> table in {QueueItems, Executions, Dispatches, Events, Checks, Assignees, Artifacts, Comments})
    && (row.factory.Some? ==> table !in {Events, Assignees, Factories})
    && (row.factory.None? ==> table in {Events, Assignees, Factories, Canvases})
  }

  /** What the schema guarantees: rows have their table's foreign keys, and these refer to rows that exist. */
  ghost predicate Intact(rows: Rows) {
    forall k :: k in rows ==> Shaped(k.table, rows[k]) && forall r :: r in Refs(rows[k]) ==> r in rows
  }

  /** Events and assignees belong to the factory of their order, other rows to the factory they name. */
  predicate Belongs(rows: Rows, k: Key, f: nat)
    requires k in rows
  {
    if k.table in {Events, Assignees} then
      rows[k].order.Some? && Key(Orders, rows[k].order.value) in rows
      && rows[Key(Orders, rows[k].order.value)].factory == Some(f)
    else rows[k].factory == Some(f)
  }

  function RowsOf(rows: Rows, table: Table, f: nat): set<Key> {
    set k | k in rows && k.table == table && Belongs(rows, k, f)
  }

  /** The rows that the cleaner is there to delete before the factory itself. */
  function Children(rows: Rows, f: nat): set<Key> {
    set k | k in rows && !(k.table in {Factories, Artifacts, Comments, Canvases}) && Belongs(rows, k, f)
  }

  predicate Owned(rows: Rows, r: Key, f: nat) {
    r == Key(Factories, f) || (r in rows && rows[r].factory == Some(f))
  }

  /** Some row that the cleaner does not delete refers to the factory or to a row of it. */
  ghost predicate Blocked(rows: Rows, f: nat) {
    exists k, r :: k in rows && k !in Children(rows, f) && r in Refs(rows[k]) && Owned(rows, r, f)
  }

  /** The children, by their columns. */
  lemma ChildrenAre(rows: Rows, f: nat, k: Key)
    ensures k in Children(rows, f) <==>
      && k in rows
      && (|| (k.table in {QueueItems, Executions, Dispatches, Checks, Orders, Lines} && rows[k].factory == Some(f))
          || (k.table in {Events, Assignees} && rows[k].order.Some? && Key(Orders, rows[k].order.value) in rows
              && rows[Key(Orders, rows[k].order.value)].factory == Some(f)))
  {
    match k.table
    case QueueItems | Executions | Dispatches | Checks | Orders | Lines =>
    case Events | Assignees =>
    case Factories | Artifacts | Comments | Canvases =>
  }

  /** One of the columns names the factory, or an order, line or dispatch of the factory. */
  ghost predicate PointsInto(rows: Rows, row: Row, f: nat) {
    || row.factory == Some(f)
    || (row.order.Some? && Key(Orders, row.order.value) in rows && rows[Key(Orders, row.order.value)].factory == Some(f))
    || (row.line.Some? && Key(Lines, row.line.value) in rows && rows[Key(Lines, row.line.value)].factory == Some(f))
    || (row.dispatch.Some? && Key(Dispatches, row.dispatch.value) in rows
        && rows[Key(Dispatches, row.dispatch.value)].factory == Some(f))
  }

  lemma RefersIff(rows: Rows, k: Key, f: nat)
    requires Intact(rows) && k in rows
    ensures (exists r :: r in Refs(rows[k]) && Owned(rows, r, f)) <==> PointsInto(rows, rows[k], f)
  {
    var row := rows[k];
    assert row.factory.Some? ==> Key(Factories, row.factory.value) in Refs(row);
    assert row.order.Some? ==> Key(Orders, row.order.value) in Refs(row);
    assert row.line.Some? ==> Key(Lines, row.line.value) in Refs(row);
    assert row.dispatch.Some? ==> Key(Dispatches, row.dispatch.value) in Refs(row);
    assert forall g :: Key(Factories, g) in rows ==> Shaped(Factories, rows[Key(Factories, g)]);
  }

  /** A factory is blocked by a single row that is no child of it, and has a column that points to it or into it. */
  lemma BlockedIff(rows: Rows, f: nat)
    requires Intact(rows)
    ensures Blocked(rows, f) <==> exists k :: k in rows && k !in Children(rows, f) && PointsInto(rows, rows[k], f)
  {
    if Blocked(rows, f) {
      var k, r :| k in rows && k !in Children(rows, f) && r in Refs(rows[k]) && Owned(rows, r, f);
      RefersIff(rows, k, f);
    } else {
      forall k | k in rows && k !in Children(rows, f) ensures !PointsInto(rows, rows[k], f) {
        RefersIff(rows, k, f);
      }
    }
  }

  /** A database refuses to delete rows exactly when a row that stays has a column with one of them. */
  lemma RestrictedIff(rows: Rows, doomed: set<Key>)
    ensures Restricted(rows, doomed) <==>
      exists k :: k in rows && k !in doomed &&
        (|| (rows[k].factory.Some? && Key(Factories, rows[k].factory.value) in doomed)
         || (rows[k].order.Some? && Key(Orders, rows[k].order.value) in doomed)
         || (rows[k].line.Some? && Key(Lines, rows[k].line.value) in doomed)
         || (rows[k].dispatch.Some? && Key(Dispatches, rows[k].dispatch.value) in doomed))
  {
    forall k, r | k in rows && r in Refs(rows[k])
      ensures (rows[k].factory.Some? && r == Key(Factories, rows[k].factory.value))
              || (rows[k].order.Some? && r == Key(Orders, rows[k].order.value))
              || (rows[k].line.Some? && r == Key(Lines, rows[k].line.value))
              || (rows[k].dispatch.Some? && r == Key(Dispatches, rows[k].dispatch.value))
    {
    }
    forall k | k in rows
      ensures rows[k].factory.Some? ==> Key(Factories, rows[k].factory.value) in Refs(rows[k])
      ensures rows[k].order.Some? ==> Key(Orders, rows[k].order.value) in Refs(rows[k])
      ensures rows[k].line.Some? ==> Key(Lines, rows[k].line.value) in Refs(rows[k])
      ensures rows[k].dispatch.Some? ==> Key(Dispatches, rows[k].dispatch.value) in Refs(rows[k])
    {
    }
  }

  /** Some row that stays refers to a row that goes. */
  predicate Restricted(rows: Rows, doomed: set<Key>) {
    exists k, r :: k in rows && k !in doomed && r in Refs(rows[k]) && r in doomed
  }

  // ----- deleting part of the rows -----

  lemma IntactAfter(rows: Rows, doomed: set<Key>)
    requires Intact(rows) && !Restricted(rows, doomed)
    ensures Intact(rows - doomed)
  {
  }

  lemma ChildrenAfter(rows: Rows, doomed: set<Key>, f: nat)
    requires Intact(rows) && Intact(rows - doomed)
    ensures Children(rows - doomed, f) == Children(rows, f) - doomed
    ensures forall table :: RowsOf(rows - doomed, table, f) == RowsOf(rows, table, f) - doomed
  {
    var after := rows - doomed;
    forall k | k in after ensures Belongs(after, k, f) <==> Belongs(rows, k, f) {
      if rows[k].order.Some? {
        assert Key(Orders, rows[k].order.value) in Refs(rows[k]);
        assert Refs(after[k]) == Refs(rows[k]);
      }
    }
  }

  lemma UnblockedAfter(rows: Rows, doomed: set<Key>, f: nat)
    requires Intact(rows) && Intact(rows - doomed) && !Blocked(rows, f)
    ensures !Blocked(rows - doomed, f)
  {
    ChildrenAfter(rows, doomed, f);
    if k, r :| && k in rows - doomed && k !in Children(rows - doomed, f)
               && r in Refs((rows - doomed)[k]) && Owned(rows - doomed, r, f) {
      assert k in rows && k !in Children(rows, f) && r in Refs(rows[k]) && Owned(rows, r, f);
    }
  }

  /** The tables whose rows may refer to a row of a table. */
  function Referring(table: Table): set<Table> {
    match table
    case Dispatches => {QueueItems, Executions}
    case Lines => {QueueItems, Executions, Dispatches}
    case Orders => {QueueItems, Executions, Dispatches, Events, Checks, Assignees}
    case _ => {}
  }

  lemma ReferrerIsChild(rows: Rows, f: nat, k: Key, r: Key)
    requires !Blocked(rows, f) && k in rows && r in Refs(rows[k]) && Owned(rows, r, f)
    ensures k in RowsOf(rows, k.table, f)
  {
    assert k in Children(rows, f);
  }

  lemma ReferrerIsReferring(rows: Rows, k: Key, r: Key)
    requires Intact(rows) && k in rows && r in Refs(rows[k])
    ensures r.table in {Orders, Lines, Dispatches, Factories}
    ensures r.table != Factories && k.table !in {Artifacts, Comments} ==> k.table in Referring(r.table)
  {
  }

  /** Rows of an unblocked factory can go once the tables that refer to theirs are empty for the factory. */
  lemma NotRestricted(rows: Rows, f: nat, table: Table, doomed: set<Key>)
    requires Intact(rows) && !Blocked(rows, f)
    requires table in {QueueItems, Executions, Dispatches, Events, Checks, Assignees, Orders, Lines}
    requires doomed <= RowsOf(rows, table, f)
    requires forall other :: other in Referring(table) ==> RowsOf(rows, other, f) == {}
    ensures !Restricted(rows, doomed)
  {
    assert forall r :: r in doomed ==> r.table == table && r in rows && Belongs(rows, r, f);
    forall k, r | k in rows && r in Refs(rows[k]) ensures r !in doomed {
      if Owned(rows, r, f) && r.table == table {
        ReferrerIsReferring(rows, k, r);
        ReferrerIsChild(rows, f, k, r);
      }
    }
  }

  /** The orders with no row left in the six tables that the cleaner looks at. */
  function Orphans(rows: Rows, f: nat): set<Key> {
    set k | && k in RowsOf(rows, Orders, f)
            && !exists c :: && c in rows && c.table in {Events, Assignees, Executions, Dispatches, QueueItems, Checks}
                            && rows[c].order == Some(k.id)
  }

  lemma AllOrphans(rows: Rows, f: nat)
    requires Intact(rows) && !Blocked(rows, f)
    requires forall other :: other in Referring(Orders) ==> RowsOf(rows, other, f) == {}
    ensures Orphans(rows, f) == RowsOf(rows, Orders, f)
  {
    forall k | k in RowsOf(rows, Orders, f) ensures k in Orphans(rows, f) {
      forall c | c in rows && c.table in Referring(Orders) ensures rows[c].order != Some(k.id) {
        assert c in Children(rows, f) ==> c in RowsOf(rows, c.table, f);
        assert rows[c].order == Some(k.id) ==> k in Refs(rows[c]) && Owned(rows, k, f);
      }
    }
  }

  // ----- the cleaner -----

  /** The stage in which a table is dealt with. */
  function Stage(table: Table): nat {
    match table
    case QueueItems => 0
    case Executions => 1
    case Dispatches => 2
    case Events => 3
    case Checks => 4
    case Assignees => 5
    case Orders => 6
    case Lines => 7
    case _ => 8
  }

  /** The tables in the order in which they are dealt with: no table before one whose rows refer to it. */
  const STAGES: seq<Table> := [QueueItems, Executions, Dispatches, Events, Checks, Assignees, Orders, Lines]

  /** The tables of the first stages hold no row of the factory. */
  ghost predicate EmptyTables(rows: Rows, f: nat, done: nat) {
    forall table :: Stage(table) < done ==> RowsOf(rows, table, f) == {}
  }

  /** The rows that a stage may delete. Of the orders, those without rows in the tables that go first. */
  function Candidates(rows: Rows, table: Table, f: nat): set<Key> {
    if table == Orders then Orphans(rows, f) else RowsOf(rows, table, f)
  }

  /**
   * The first stages have left nothing that they could delete, blocked or not: no row of the factory in their tables,
   * except orders that still have a row in one of the six tables before them.
   */
  ghost predicate Exhausted(rows: Rows, f: nat, done: nat) {
    && (forall table :: Stage(table) < done && table != Orders ==> RowsOf(rows, table, f) == {})
    && (done > 6 ==>
          forall k :: k in RowsOf(rows, Orders, f) ==>
            exists c :: && c in rows && c.table in {QueueItems, Executions, Dispatches, Events, Checks, Assignees}
                        && rows[c].order == Some(k.id))
  }

  lemma ExhaustedAfter(rows: Rows, f: nat, done: nat, table: Table, doomed: set<Key>)
    requires Intact(rows) && Intact(rows - doomed) && Exhausted(rows, f, done)
    requires doomed <= RowsOf(rows, table, f) && Stage(table) == done < 8
    ensures Exhausted(rows - doomed, f, done)
  {
    ChildrenAfter(rows, doomed, f);
    var after := rows - doomed;
    if done > 6 {
      forall k | k in RowsOf(after, Orders, f)
        ensures exists c :: && c in after && c.table in {QueueItems, Executions, Dispatches, Events, Checks, Assignees}
                            && after[c].order == Some(k.id)
      {
        assert k in RowsOf(rows, Orders, f);
        var c :| && c in rows && c.table in {QueueItems, Executions, Dispatches, Events, Checks, Assignees}
                 && rows[c].order == Some(k.id);
        assert Stage(c.table) < 6;
        assert c in after;
      }
    }
  }

  lemma ExhaustedMore(rows: Rows, f: nat, done: nat, table: Table)
    requires Exhausted(rows, f, done) && Stage(table) == done < 8 && Candidates(rows, table, f) == {}
    ensures Exhausted(rows, f, done + 1)
  {
    forall other | Stage(other) < done + 1 && other != Orders ensures RowsOf(rows, other, f) == {} {
      assert Stage(other) == done ==> other == table;
    }
    if done == 6 {
      assert table == Orders;
      forall k | k in RowsOf(rows, Orders, f)
        ensures exists c :: && c in rows && c.table in {QueueItems, Executions, Dispatches, Events, Checks, Assignees}
                            && rows[c].order == Some(k.id)
      {
        assert k !in Orphans(rows, f);
      }
    }
  }

  lemma NoCandidatesLeft(rows: Rows, f: nat, table: Table)
    requires Intact(rows) && Intact(rows - Candidates(rows, table, f))
    ensures Candidates(rows - Candidates(rows, table, f), table, f) == {}
  {
    var doomed := Candidates(rows, table, f);
    var after := rows - doomed;
    ChildrenAfter(rows, doomed, f);
    if table == Orders {
      forall k | k in RowsOf(after, Orders, f) ensures k !in Orphans(after, f) {
        assert k in RowsOf(rows, Orders, f) && k !in Orphans(rows, f);
        var c :| && c in rows && c.table in {Events, Assignees, Executions, Dispatches, QueueItems, Checks}
                 && rows[c].order == Some(k.id);
        assert c in after;
      }
    }
  }

  /** Part of a run of the cleaner: only children are gone, and the tables dealt with are empty unless it is blocked. */
  ghost predicate Cleaned(before: Rows, now: Rows, f: nat, gone: set<Key>, done: nat) {
    && now == before - gone && gone <= Children(before, f)
    && Intact(now) && Children(now, f) == Children(before, f) - gone
    && Exhausted(now, f, done) && (forall k :: k in gone ==> Stage(k.table) <= done)
    && (!Blocked(before, f) ==> !Blocked(now, f) && EmptyTables(now, f, done))
  }

  lemma RemovedTwice(rows: Rows, a: set<Key>, b: set<Key>)
    ensures (rows - a) - b == rows - (a + b)
  {
  }

  lemma WithoutBoth(s: set<Key>, a: set<Key>, b: set<Key>)
    requires a <= s && b <= s - a
    ensures (s - a) - b == s - (a + b) && a + b <= s && |a + b| == |a| + |b|
  {
  }

  lemma CleanedMore(before: Rows, now: Rows, f: nat, gone: set<Key>, done: nat, table: Table, doomed: set<Key>)
    requires Cleaned(before, now, f, gone, done)
    requires doomed <= RowsOf(now, table, f) <= Children(now, f) && Stage(table) == done < 8 && !Restricted(now, doomed)
    ensures Cleaned(before, now - doomed, f, gone + doomed, done)
    ensures |gone + doomed| == |gone| + |doomed|
  {
    IntactAfter(now, doomed);
    ExhaustedAfter(now, f, done, table, doomed);
    ChildrenAfter(now, doomed, f);
    if !Blocked(now, f) {
      UnblockedAfter(now, doomed, f);
    }
    RemovedTwice(before, gone, doomed);
    WithoutBoth(Children(before, f), gone, doomed);
  }

  predicate IsChildTable(table: Table) {
    Stage(table) < 8
  }

  lemma StageIsSafe(before: Rows, now: Rows, f: nat, gone: set<Key>, done: nat, table: Table, doomed: set<Key>)
    requires Cleaned(before, now, f, gone, done) && IsChildTable(table) && Stage(table) == done
    requires doomed <= Candidates(now, table, f)
    ensures doomed <= RowsOf(now, table, f) <= Children(now, f)
    ensures !Blocked(before, f) ==> !Restricted(now, doomed)
    ensures !Blocked(before, f) ==> Candidates(now, table, f) == RowsOf(now, table, f)
  {
    if !Blocked(before, f) {
      NotRestricted(now, f, table, doomed);
      if table == Orders {
        AllOrphans(now, f);
      }
    }
  }

  /** What a stage that succeeded has done, up to its limit. */
  ghost predicate StageDone(
      before: Rows, was: Rows, now: Rows, f: nat, gone: set<Key>, goneNow: set<Key>, done: nat, table: Table,
      count: nat, remaining: nat) {
    && Cleaned(before, now, f, goneNow, done) && |goneNow| == |gone| + count && count <= remaining
    && (!Blocked(before, f) && count < remaining ==> RowsOf(now, table, f) == {})
    && (count < remaining ==> Candidates(now, table, f) == {})
    && (table != Lines ==> RowsOf(now, Lines, f) == RowsOf(was, Lines, f))
    && (count > 0 ==> RowsOf(was, table, f) != {})
  }

  lemma EmptiedOrUntouched(was: Rows, f: nat, table: Table, doomed: set<Key>)
    requires Intact(was) && !Restricted(was, doomed) && doomed <= RowsOf(was, table, f)
    ensures doomed == RowsOf(was, table, f) ==> RowsOf(was - doomed, table, f) == {}
    ensures table != Lines ==> RowsOf(was - doomed, Lines, f) == RowsOf(was, Lines, f)
  {
    IntactAfter(was, doomed);
    ChildrenAfter(was, doomed, f);
    assert RowsOf(was - doomed, table, f) == RowsOf(was, table, f) - doomed;
    assert RowsOf(was - doomed, Lines, f) == RowsOf(was, Lines, f) - doomed;
  }

  lemma AllOrLimit(doomed: set<Key>, candidates: set<Key>, remaining: nat)
    requires IsPart(doomed, candidates, remaining)
    ensures |doomed| < remaining ==> doomed == candidates
  {
    Smaller(doomed, candidates);
  }

  lemma StageEffect(
      before: Rows, was: Rows, f: nat, gone: set<Key>, done: nat, table: Table, doomed: set<Key>, remaining: nat)
    requires Cleaned(before, was, f, gone, done) && IsChildTable(table) && Stage(table) == done
    requires IsPart(doomed, Candidates(was, table, f), remaining)
    ensures !Blocked(before, f) ==> !Restricted(was, doomed)
    ensures !Restricted(was, doomed)
            ==> StageDone(before, was, was - doomed, f, gone, gone + doomed, done, table, |doomed|, remaining)
  {
    StageIsSafe(before, was, f, gone, done, table, doomed);
    AllOrLimit(doomed, Candidates(was, table, f), remaining);
    if !Restricted(was, doomed) {
      CleanedMore(before, was, f, gone, done, table, doomed);
      if |doomed| < remaining {
        NoCandidatesLeft(was, f, table);
      }
      EmptiedOrUntouched(was, f, table, doomed);
    }
  }

  /** No stage has deleted anything before those in front of it had nothing left, and a call below its limit has left nothing
      that it could delete. */
  ghost predicate StageByStage(after: Rows, f: nat, limit: int, gone: set<Key>, deleted: nat) {
    && (forall k :: k in gone && k.table != Factories ==> Exhausted(after, f, Stage(k.table)))
    && (0 < limit && deleted < limit ==> Exhausted(after, f, 8))
  }

  /** A call that did not fail: what it has deleted, and what it reports. */
  ghost predicate Ran(before: Rows, f: nat, limit: int, gone: set<Key>, after: Rows, deleted: nat, complete: bool) {
    && after == before - gone && Intact(after)
    && gone <= before.Keys && gone <= Children(before, f) + {Key(Factories, f)}
    && deleted == |gone|
    && (complete <==> Key(Factories, f) in gone)
    && (limit <= 0 ==> gone == {})
    && StageByStage(after, f, limit, gone, deleted)
    && (limit > 0 && !complete ==> deleted <= limit)
    && (complete ==> deleted <= limit + 1 && Children(after, f) == {} && !Blocked(before, f))
    && (limit > 0 && !Blocked(before, f) && Key(Factories, f) in before ==>
          && !Blocked(after, f)
          && |gone * Children(before, f)| == Least(limit, |Children(before, f)|)
          && |Children(after, f)| == |Children(before, f)| - Least(limit, |Children(before, f)|)
          && (complete <==> || |Children(before, f)| < limit
                            || (|Children(before, f)| == limit && RowsOf(before, Lines, f) != {})))
  }

  lemma ExhaustedUpTo(rows: Rows, f: nat, limit: int, done: nat, gone: set<Key>)
    requires Exhausted(rows, f, done) && forall k :: k in gone ==> Stage(k.table) <= done
    ensures forall k :: k in gone ==> Exhausted(rows, f, Stage(k.table))
    ensures done == 8 || |gone| >= limit ==> StageByStage(rows, f, limit, gone, |gone|)
  {
  }

  lemma PartOf(a: set<Key>, b: set<Key>)
    requires a <= b
    ensures a * b == a && |b - a| == |b| - |a|
  {
    Smaller(a, b);
    assert a * b == a;
  }

  lemma LinesAreChildren(rows: Rows, f: nat)
    ensures |Children(rows, f)| == 0 ==> RowsOf(rows, Lines, f) == {}
  {
    assert RowsOf(rows, Lines, f) <= Children(rows, f);
  }

  lemma ReachesLimit(before: Rows, now: Rows, f: nat, limit: int, gone: set<Key>, done: nat)
    requires Cleaned(before, now, f, gone, done) && |gone| == limit > 0
    requires RowsOf(now, Lines, f) == RowsOf(before, Lines, f)
    ensures Ran(before, f, limit, gone, now, limit, false)
  {
    PartOf(gone, Children(before, f));
    LinesAreChildren(now, f);
    ExhaustedUpTo(now, f, limit, done, gone);
  }

  /** The domain is not empty after the last stage: lines are left, because the limit was reached there. */
  lemma LinesLeft(before: Rows, now: Rows, f: nat, limit: int, gone: set<Key>, done: nat)
    requires Cleaned(before, now, f, gone, done) && |gone| <= limit && limit > 0
    requires !Blocked(before, f) && Key(Factories, f) in before ==> |gone| == limit && Children(now, f) != {}
    requires |gone| < limit ==> Exhausted(now, f, 8)
    ensures Ran(before, f, limit, gone, now, |gone|, false)
  {
    ExhaustedUpTo(now, f, limit, done, gone);
    PartOf(gone, Children(before, f));
  }

  lemma FactoryCanGo(before: Rows, now: Rows, f: nat, gone: set<Key>)
    requires Cleaned(before, now, f, gone, 8)
    ensures !Blocked(before, f) ==> !Restricted(now, {Key(Factories, f)}) && Children(now, f) == {}
  {
    if !Blocked(before, f) {
      assert Children(now, f) == {} by {
        forall k ensures k !in Children(now, f) {
          assert k in Children(now, f) ==> k in RowsOf(now, k.table, f) && Stage(k.table) < 8;
        }
      }
      forall k, r | k in now && r in Refs(now[k]) ensures r != Key(Factories, f) {
        assert Owned(now, r, f) ==> k in Children(now, f);
      }
    }
  }

  lemma FactoryGone(before: Rows, now: Rows, f: nat, gone: set<Key>, done: nat)
    requires Cleaned(before, now, f, gone, done) && Intact(before)
    requires Key(Factories, f) in now && !Restricted(now, {Key(Factories, f)})
    ensures !Blocked(before, f) && Children(now, f) == {}
  {
    var fk := Key(Factories, f);
    forall k | k in now ensures now[k].factory != Some(f) {
      var row := now[k];
      assert fk in Refs(row) <==> row.factory == Some(f);
    }
    forall k, r | k in before && k !in Children(before, f) && r in Refs(before[k]) ensures !Owned(before, r, f) {
      assert k in now && r in Refs(now[k]) && r in now && now[r] == before[r];
      assert k != fk;
    }
  }

  lemma NothingLeft(rows: Rows, f: nat, limit: int, gone: set<Key>, deleted: nat)
    requires Children(rows, f) == {}
    ensures StageByStage(rows, f, limit, gone, deleted)
  {
    forall table | Stage(table) < 8 ensures RowsOf(rows, table, f) == {} {
      assert RowsOf(rows, table, f) <= Children(rows, f);
    }
  }

  lemma FactoryRan(before: Rows, now: Rows, f: nat, limit: int, gone: set<Key>, done: nat)
    requires Cleaned(before, now, f, gone, done) && Intact(before) && 0 < limit && |gone| <= limit
    requires Key(Factories, f) in now && !Restricted(now, {Key(Factories, f)})
    requires |gone| == limit ==> RowsOf(before, Lines, f) != {}
    ensures Ran(before, f, limit, gone + {Key(Factories, f)}, now - {Key(Factories, f)}, |gone| + 1, true)
  {
    var fk := Key(Factories, f);
    FactoryGone(before, now, f, gone, done);
    IntactAfter(now, {fk});
    ChildrenAfter(now, {fk}, f);
    UnblockedAfter(now, {fk}, f);
    RemovedTwice(before, gone, {fk});
    Smaller(gone, Children(before, f));
    assert Children(before, f) - gone == {};
    assert gone == Children(before, f);
    assert (gone + {fk}) * Children(before, f) == gone;
    NothingLeft(now - {fk}, f, limit, gone + {fk}, |gone| + 1);
  }

  lemma OneMoreTable(rows: Rows, f: nat, done: nat, table: Table)
    requires EmptyTables(rows, f, done) && RowsOf(rows, table, f) == {} && Stage(table) == done < 8
    ensures EmptyTables(rows, f, done + 1)
  {
    forall other | Stage(other) < done + 1 ensures RowsOf(rows, other, f) == {} {
      assert Stage(other) == done ==> other == table;
    }
  }

  lemma OneMoreStage(before: Rows, now: Rows, f: nat, gone: set<Key>, done: nat, table: Table)
    requires Cleaned(before, now, f, gone, done) && Stage(table) == done < 8
    requires !Blocked(before, f) ==> RowsOf(now, table, f) == {}
    requires Candidates(now, table, f) == {}
    ensures Cleaned(before, now, f, gone, done + 1)
  {
    ExhaustedMore(now, f, done, table);
    if !Blocked(before, f) {
      OneMoreTable(now, f, done, table);
    }
  }

  /** Between two stages: rows can still be deleted, and no line has been. */
  ghost predicate InRun(before: Rows, now: Rows, f: nat, limit: int, gone: set<Key>, done: nat, remaining: int) {
    && Cleaned(before, now, f, gone, done) && |gone| + remaining == limit && remaining > 0
    && RowsOf(now, Lines, f) == RowsOf(before, Lines, f)
  }

  /** A stage before the lines: it leads to the next one, ends the call at its limit, or fails. */
  lemma StageOfRun(
      before: Rows, was: Rows, f: nat, limit: int, gone: set<Key>, stage: nat, doomed: set<Key>, remaining: nat)
    requires stage < 7 && InRun(before, was, f, limit, gone, stage, remaining)
    requires IsPart(doomed, Candidates(was, STAGES[stage], f), remaining)
    ensures Restricted(was, doomed) ==> Blocked(before, f) && SomeRefused(before, f, limit)
    ensures !Restricted(was, doomed) ==> |gone + doomed| == |gone| + |doomed| && |doomed| <= remaining
    ensures !Restricted(was, doomed) && |doomed| < remaining
            ==> InRun(before, was - doomed, f, limit, gone + doomed, stage + 1, remaining - |doomed|)
    ensures !Restricted(was, doomed) && |doomed| == remaining
            ==> Ran(before, f, limit, gone + doomed, was - doomed, limit, false)
  {
    var table := STAGES[stage];
    StageEffect(before, was, f, gone, stage, table, doomed, remaining);
    if !Restricted(was, doomed) {
      if |doomed| < remaining {
        OneMoreStage(before, was - doomed, f, gone + doomed, stage, table);
      } else {
        ReachesLimit(before, was - doomed, f, limit, gone + doomed, stage);
      }
    } else {
      StageRefused(before, was, f, limit, gone, stage, table, doomed, remaining);
    }
  }

  /** The four tables that are looked at before the factory itself is deleted. */
  predicate DomainEmpty(rows: Rows, f: nat) {
    && RowsOf(rows, Executions, f) == {} && RowsOf(rows, Dispatches, f) == {}
    && RowsOf(rows, Orders, f) == {} && RowsOf(rows, Lines, f) == {}
  }

  /** What holds once no line could be deleted any more: the factory can go, is gone already, or must wait. */
  ghost predicate AfterLines(before: Rows, now: Rows, f: nat, limit: int, gone: set<Key>) {
    && (!DomainEmpty(now, f) ==> Ran(before, f, limit, gone, now, |gone|, false))
    && (DomainEmpty(now, f) && Restricted(now, {Key(Factories, f)}) ==> Blocked(before, f))
    && (DomainEmpty(now, f) && !Restricted(now, {Key(Factories, f)}) ==>
          if Key(Factories, f) in now
          then Ran(before, f, limit, gone + {Key(Factories, f)}, now - {Key(Factories, f)}, |gone| + 1, true)
          else Ran(before, f, limit, gone, now, |gone|, false))
  }

  lemma LinesDone(
      before: Rows, was: Rows, now: Rows, f: nat, limit: int, gone: set<Key>, goneNow: set<Key>, count: nat, remaining: nat)
    requires InRun(before, was, f, limit, gone, 7, remaining) && Intact(before)
    requires StageDone(before, was, now, f, gone, goneNow, 7, Lines, count, remaining)
    ensures AfterLines(before, now, f, limit, goneNow)
  {
    LinesAreChildren(now, f);
    if count < remaining {
      ExhaustedMore(now, f, 7, Lines);
    }
    assert !Blocked(before, f) && RowsOf(now, Lines, f) == {} ==> DomainEmpty(now, f) by {
      assert Stage(Executions) < 7 && Stage(Dispatches) < 7 && Stage(Orders) < 7;
    }
    if !DomainEmpty(now, f) {
      LinesLeft(before, now, f, limit, goneNow, 7);
    } else {
      OneMoreStage(before, now, f, goneNow, 7, Lines);
      FactoryCanGo(before, now, f, goneNow);
      if !Restricted(now, {Key(Factories, f)}) {
        if Key(Factories, f) in now {
          FactoryRan(before, now, f, limit, goneNow, 8);
        } else {
          LinesLeft(before, now, f, limit, goneNow, 7);
        }
      }
    }
  }

  /** The last statements of a call: lines go, and then the factory if nothing of it is left. */
  ghost predicate Finished(was: Rows, f: nat, doomed: set<Key>, now: Rows, complete: bool, ok: bool) {
    var rest := was - doomed;
    if Restricted(was, doomed) then !ok
    else if !DomainEmpty(rest, f) then ok && !complete && now == rest
    else if Restricted(rest, {Key(Factories, f)}) then !ok
    else ok && (complete <==> Key(Factories, f) in rest) && now == if complete then rest - {Key(Factories, f)} else rest
  }

  /**
   * A statement that the database refuses: the factory's own, once the four tables are empty, or that of a stage, once the
   * stages before it have nothing left to delete. Up to it the call has deleted children within the limit.
   */
  ghost predicate Refused(before: Rows, f: nat, limit: int, gone: set<Key>, doomed: set<Key>) {
    var now := before - gone;
    && gone <= Children(before, f) && |gone| <= limit && Restricted(now, doomed)
    && (|| (doomed == {Key(Factories, f)} && DomainEmpty(now, f))
        || (exists table ::
              && Stage(table) < 8 && Exhausted(now, f, Stage(table))
              && doomed <= RowsOf(now, table, f) && |doomed| <= limit - |gone|
              && (table == Orders ==>
                    !exists k, c :: && k in doomed && c in now && now[c].order == Some(k.id)
                                    && c.table in {QueueItems, Executions, Dispatches, Events, Checks, Assignees})))
  }

  ghost predicate SomeRefused(before: Rows, f: nat, limit: int) {
    exists gone, doomed :: Refused(before, f, limit, gone, doomed)
  }

  lemma StageRefused(
      before: Rows, was: Rows, f: nat, limit: int, gone: set<Key>, done: nat, table: Table, doomed: set<Key>, remaining: nat)
    requires InRun(before, was, f, limit, gone, done, remaining) && Stage(table) == done < 8
    requires IsPart(doomed, Candidates(was, table, f), remaining) && Restricted(was, doomed)
    ensures SomeRefused(before, f, limit)
  {
    assert doomed <= RowsOf(was, table, f) && |doomed| <= limit - |gone|;
    assert table == Orders ==> doomed <= Orphans(was, f);
    assert Refused(before, f, limit, gone, doomed);
  }

  lemma FactoryRefused(before: Rows, now: Rows, f: nat, limit: int, gone: set<Key>, done: nat)
    requires Cleaned(before, now, f, gone, done) && |gone| <= limit
    requires DomainEmpty(now, f) && Restricted(now, {Key(Factories, f)})
    ensures SomeRefused(before, f, limit)
  {
    assert Refused(before, f, limit, gone, {Key(Factories, f)});
  }

  function WithFactory(gone: set<Key>, f: nat, complete: bool): set<Key> {
    if complete then gone + {Key(Factories, f)} else gone
  }

  lemma StageOfLines(
      before: Rows, was: Rows, f: nat, limit: int, gone: set<Key>, doomed: set<Key>, remaining: nat,
      now: Rows, complete: bool, ok: bool)
    requires InRun(before, was, f, limit, gone, 7, remaining) && Intact(before)
    requires IsPart(doomed, Candidates(was, Lines, f), remaining) && Finished(was, f, doomed, now, complete, ok)
    ensures !ok ==> Blocked(before, f) && SomeRefused(before, f, limit)
    ensures ok ==> |gone + doomed| == |gone| + |doomed|
    ensures ok ==> Ran(before, f, limit, WithFactory(gone + doomed, f, complete), now,
                       |gone + doomed| + if complete then 1 else 0, complete)
  {
    StageEffect(before, was, f, gone, 7, Lines, doomed, remaining);
    if !Restricted(was, doomed) {
      LinesDone(before, was, was - doomed, f, limit, gone, gone + doomed, |doomed|, remaining);
      if DomainEmpty(was - doomed, f) && Restricted(was - doomed, {Key(Factories, f)}) {
        FactoryRefused(before, was - doomed, f, limit, gone + doomed, 7);
      }
    } else {
      StageRefused(before, was, f, limit, gone, 7, Lines, doomed, remaining);
    }
  }

  lemma NothingDeleted(rows: Rows, f: nat, limit: int)
    requires Intact(rows)
    ensures limit <= 0 ==> Ran(rows, f, limit, {}, rows, 0, false)
    ensures limit > 0 ==> InRun(rows, rows, f, limit, {}, 0, limit)
  {
    assert rows - {} == rows && Children(rows, f) - {} == Children(rows, f);
  }

  class FactoryResourceCleaner {
    const factory: nat
    const limit: int
    var rows: Rows

    constructor (rows: Rows, factory: nat, limit: int)
      ensures this.rows == rows && this.factory == factory && this.limit == limit
    {
      this.rows, this.factory, this.limit := rows, factory, limit;
    }

    /** Deletes some of the candidates, as many as the limit allows, unless a row that stays refers to one of them. */
    method DeleteLimited(candidates: set<Key>, remaining: nat) returns (count: nat, ok: bool, ghost doomed: set<Key>)
      modifies this
      ensures IsPart(doomed, candidates, remaining)
      ensures ok <==> !Restricted(old(rows), doomed)
      ensures rows == if ok then old(rows) - doomed else old(rows)
      ensures ok ==> count == |doomed|
    {
      var chosen := TakeSome(candidates, remaining);
      doomed := chosen;
      if Restricted(rows, chosen) {
        return 0, false, chosen;
      }
      rows := rows - chosen;
      return |chosen|, true, chosen;
    }

    /** One stage of a run. Of the orders, only those without rows in the tables that go first are deleted. */
    method DeleteFrom(table: Table, remaining: nat) returns (count: nat, ok: bool, ghost doomed: set<Key>)
      modifies this
      ensures IsPart(doomed, Candidates(old(rows), table, factory), remaining)
      ensures ok <==> !Restricted(old(rows), doomed)
      ensures rows == if ok then old(rows) - doomed else old(rows)
      ensures ok ==> count == |doomed|
    {
      var candidates := Candidates(rows, table, factory);
      count, ok, doomed := DeleteLimited(candidates, remaining);
    }

    method FactoryDomainEmpty() returns (empty: bool)
      ensures empty <==> DomainEmpty(rows, factory)
      ensures empty <==>
                forall k :: k in rows && k.table in {Executions, Dispatches, Orders, Lines} ==> rows[k].factory != Some(factory)
    {
      var executions, dispatches := RowsOf(rows, Executions, factory), RowsOf(rows, Dispatches, factory);
      var orders, lines := RowsOf(rows, Orders, factory), RowsOf(rows, Lines, factory);
      empty := executions == {} && dispatches == {} && orders == {} && lines == {};
      assert forall k :: k in rows && k.table in {Executions, Dispatches, Orders, Lines} ==>
        (k in RowsOf(rows, k.table, factory) <==> rows[k].factory == Some(factory));
    }

    method DeleteFactory() returns (complete: bool, ok: bool)
      modifies this
      ensures ok <==> !Restricted(old(rows), {Key(Factories, factory)})
      ensures complete <==> ok && Key(Factories, factory) in old(rows)
      ensures rows == if complete then old(rows) - {Key(Factories, factory)} else old(rows)
    {
      if Restricted(rows, {Key(Factories, factory)}) {
        return false, false;
      }
      if Key(Factories, factory) in rows {
        rows := rows - {Key(Factories, factory)};
        return true, true;
      }
      return false, true;
    }

    /** The last part of a call: the lines, and the factory itself once nothing of it is left. */
    method Finish(deletedBefore: nat, remaining: nat, ghost before: Rows, ghost goneBefore: set<Key>)
      returns (deleted: nat, complete: bool, ok: bool, ghost gone: set<Key>)
      requires Intact(before) && InRun(before, rows, factory, limit, goneBefore, 7, remaining) && deletedBefore == |goneBefore|
      modifies this
      ensures ok ==> Ran(before, factory, limit, gone, rows, deleted, complete)
      ensures !ok ==> Blocked(before, factory) && SomeRefused(before, factory, limit)
    {
      ghost var was, doomed := rows, {};
      var count;
      complete := false;
      count, ok, doomed := DeleteFrom(Lines, remaining);
      if ok {
        var empty := FactoryDomainEmpty();
        if empty {
          complete, ok := DeleteFactory();
        }
      }
      StageOfLines(before, was, factory, limit, goneBefore, doomed, remaining, rows, complete, ok);
      deleted := deletedBefore + count + if complete then 1 else 0;
      gone := WithFactory(goneBefore + doomed, factory, complete);
    }

    /** One stage before the lines. */
    method RunStage(stage: nat, remaining: int, ghost before: Rows, ghost goneBefore: set<Key>)
      returns (count: nat, ok: bool, ghost gone: set<Key>)
      requires stage < 7 && InRun(before, rows, factory, limit, goneBefore, stage, remaining)
      modifies this
      ensures !ok ==> Blocked(before, factory) && SomeRefused(before, factory, limit)
      ensures ok ==> |gone| == |goneBefore| + count && count <= remaining
      ensures ok && count < remaining ==> InRun(before, rows, factory, limit, gone, stage + 1, remaining - count)
      ensures ok && count == remaining ==> Ran(before, factory, limit, gone, rows, |gone|, false)
    {
      ghost var was, doomed := rows, {};
      count, ok, doomed := DeleteFrom(STAGES[stage], remaining);
      StageOfRun(before, was, factory, limit, goneBefore, stage, doomed, remaining);
      gone := goneBefore + doomed;
    }

    /** The statements of a call, up to the first that fails. */
    method RunStages() returns (deleted: nat, complete: bool, ok: bool, ghost gone: set<Key>)
      requires Intact(rows)
      modifies this
      ensures ok ==> Ran(old(rows), factory, limit, gone, rows, deleted, complete)
      ensures !ok ==> Blocked(old(rows), factory) && SomeRefused(old(rows), factory, limit)
    {
      gone := {};
      deleted := 0;
      NothingDeleted(rows, factory, limit);
      if limit <= 0 {
        return 0, false, true, {};
      }
      var remaining: int := limit;
      ghost var before := rows;
      for stage := 0 to 7
        invariant InRun(before, rows, factory, limit, gone, stage, remaining)
        invariant deleted == |gone|
      {
        var count;
        count, ok, gone := RunStage(stage, remaining, before, gone);
        if !ok {
          return 0, false, false, {};
        }
        deleted := deleted + count;
        remaining := remaining - count;
        if remaining <= 0 {
          return deleted, false, true, gone;
        }
      }
      deleted, complete, ok, gone := Finish(deleted, remaining, before, gone);
    }

    /** One call. A statement that fails aborts the transaction, so that nothing of the call stays. */
    method Run() returns (deleted: nat, complete: bool, ok: bool, ghost gone: set<Key>)
      requires Intact(rows)
      modifies this
      ensures ok ==> Ran(old(rows), factory, limit, gone, rows, deleted, complete)
      ensures !ok ==> rows == old(rows) && Blocked(rows, factory) && SomeRefused(rows, factory, limit)
    {
      var start := rows;
      deleted, complete, ok, gone := RunStages();
      if !ok {
        rows := start;
      }
    }
  }

  // ----- cleaning up over several calls -----

  datatype Call = Call(gone: set<Key>, deleted: nat, complete: bool, ok: bool)

  ghost predicate Called(before: Rows, f: nat, limit: int, call: Call, after: Rows) {
    if call.ok then Ran(before, f, limit, call.gone, after, call.deleted, call.complete)
    else after == before && Blocked(before, f) && !call.complete && call.gone == {}
  }

  ghost predicate CalledAt(states: seq<Rows>, f: nat, limit: int, calls: seq<Call>, i: nat)
    requires |states| == |calls| + 1 && i < |calls|
  {
    Called(states[i], f, limit, calls[i], states[i + 1])
  }

  /** Calls one after the other, with the rows before the first, between them, and after the last. */
  ghost predicate Calls(states: seq<Rows>, f: nat, limit: int, calls: seq<Call>) {
    && |states| == |calls| + 1 && Intact(states[0])
    && forall i :: 0 <= i < |calls| ==> CalledAt(states, f, limit, calls, i)
  }

  lemma BlockedStays(before: Rows, f: nat, gone: set<Key>)
    requires Intact(before) && Intact(before - gone) && Blocked(before, f) && gone <= Children(before, f)
    ensures Blocked(before - gone, f)
  {
    var after := before - gone;
    ChildrenAfter(before, gone, f);
    var k, r :| k in before && k !in Children(before, f) && r in Refs(before[k]) && Owned(before, r, f);
    assert k in after && r in Refs(after[k]);
    assert r != Key(Factories, f) ==> r in after;
    assert Owned(after, r, f);
  }

  lemma BlockedAfterCall(before: Rows, f: nat, limit: int, call: Call, after: Rows)
    requires Intact(before) && Blocked(before, f) && Called(before, f, limit, call, after)
    ensures !call.complete && Intact(after) && Blocked(after, f)
  {
    if call.ok {
      BlockedStays(before, f, call.gone);
    }
  }

  ghost predicate AllIncomplete(calls: seq<Call>, n: nat)
    requires n <= |calls|
  {
    n == 0 || (AllIncomplete(calls, n - 1) && !calls[n - 1].complete)
  }

  /** The factory cannot be deleted, because something that stays refers to it or to a row of it. */
  ghost predicate Stuck(rows: Rows, f: nat) {
    Intact(rows) && Blocked(rows, f)
  }

  lemma BlockedAfterCallAt(states: seq<Rows>, f: nat, limit: int, calls: seq<Call>, n: nat)
    requires |states| == |calls| + 1 && 0 < n <= |calls| && CalledAt(states, f, limit, calls, n - 1)
    ensures Stuck(states[n - 1], f) ==> !calls[n - 1].complete && Stuck(states[n], f)
  {
    if Stuck(states[n - 1], f) {
      BlockedAfterCall(states[n - 1], f, limit, calls[n - 1], states[n]);
    }
  }

  /** A factory that something else refers to is never deleted, however often the cleaner is called. */
  lemma {:induction false} BlockedNeverCompletes(states: seq<Rows>, f: nat, limit: int, calls: seq<Call>, n: nat)
    requires Calls(states, f, limit, calls) && Blocked(states[0], f) && n <= |calls|
    ensures Stuck(states[n], f) && AllIncomplete(calls, n)
  {
    if n > 0 {
      BlockedNeverCompletes(states, f, limit, calls, n - 1);
      assert CalledAt(states, f, limit, calls, n - 1);
      BlockedAfterCallAt(states, f, limit, calls, n);
    }
  }

  /** An incomplete call has not failed, and has deleted exactly as many children as the limit allows. */
  lemma IncompleteCall(before: Rows, f: nat, limit: int, call: Call, after: Rows)
    requires Intact(before) && !Blocked(before, f) && Key(Factories, f) in before && limit > 0
    requires Called(before, f, limit, call, after) && !call.complete
    ensures call.ok && Intact(after) && !Blocked(after, f) && Key(Factories, f) in after
    ensures call.deleted == limit && |Children(before, f)| == |Children(after, f)| + limit
  {
    assert call.gone * Children(before, f) == call.gone;
  }

  lemma OneMoreTime(children: int, n: nat, limit: int)
    ensures children - (n - 1) * limit - limit == children - n * limit
  {
  }

  /** The factory can still be deleted, and has this many children left. */
  ghost predicate Waiting(rows: Rows, f: nat, children: int) {
    Intact(rows) && !Blocked(rows, f) && Key(Factories, f) in rows && |Children(rows, f)| == children
  }

  lemma IncompleteCallAt(states: seq<Rows>, f: nat, limit: int, calls: seq<Call>, n: nat, children: int, left: int)
    requires |states| == |calls| + 1 && 0 < n <= |calls| && CalledAt(states, f, limit, calls, n - 1)
    requires limit > 0 && !calls[n - 1].complete && left == children - limit
    ensures Waiting(states[n - 1], f, children) ==> Waiting(states[n], f, left)
  {
    if Waiting(states[n - 1], f, children) {
      IncompleteCall(states[n - 1], f, limit, calls[n - 1], states[n]);
    }
  }

  function Left(children: int, limit: int, n: nat): int {
    if n == 0 then children else Left(children, limit, n - 1) - limit
  }

  lemma {:induction false} LeftIs(children: int, limit: int, n: nat)
    ensures Left(children, limit, n) == children - n * limit
  {
    if n > 0 {
      LeftIs(children, limit, n - 1);
      OneMoreTime(children, n, limit);
    }
  }

  /** Each incomplete call leaves the limit fewer children. */
  lemma {:induction false} IncompleteCalls(states: seq<Rows>, f: nat, limit: int, calls: seq<Call>, n: nat, children: int)
    requires Calls(states, f, limit, calls) && Waiting(states[0], f, children)
    requires limit > 0 && n <= |calls| && AllIncomplete(calls, n)
    ensures Waiting(states[n], f, Left(children, limit, n))
  {
    if n > 0 {
      IncompleteCalls(states, f, limit, calls, n - 1, children);
      assert CalledAt(states, f, limit, calls, n - 1);
      IncompleteCallAt(states, f, limit, calls, n, Left(children, limit, n - 1), Left(children, limit, n));
    }
  }

  /**
   * Once there have been floor(N / limit) + 1 calls for a factory with N children, one of them has deleted it
   * exactly when nothing else refers to it or to a row of it.
   */
  lemma CleanupCompletesIff(states: seq<Rows>, f: nat, limit: int, calls: seq<Call>)
    requires Calls(states, f, limit, calls) && Key(Factories, f) in states[0]
    requires limit > 0 && |calls| >= |Children(states[0], f)| / limit + 1
    ensures !AllIncomplete(calls, |calls|) <==> !Blocked(states[0], f)
  {
    if Blocked(states[0], f) {
      BlockedNeverCompletes(states, f, limit, calls, |calls|);
    } else if AllIncomplete(calls, |calls|) {
      var count := |Children(states[0], f)|;
      IncompleteCalls(states, f, limit, calls, |calls|, count);
      LeftIs(count, limit, |calls|);
      QuotientBound(count, limit, |calls|);
    }
  }

  lemma QuotientBound(count: nat, limit: int, n: nat)
    requires limit > 0 && n * limit <= count
    ensures n <= count / limit
  {
    assert count == (count / limit) * limit + count % limit;
    assert count < (count / limit + 1) * limit;
  }

  /** An artifact or comment of an order, which the cleaner does not delete, is enough to keep the factory forever. */
  lemma ArtifactBlocks(rows: Rows, k: Key, f: nat)
    requires Intact(rows) && k in rows && k.table in {Artifacts, Comments, Canvases} && rows[k].factory == Some(f)
    ensures Blocked(rows, f)
  {
    assert Key(Factories, f) in Refs(rows[k]) && Owned(rows, Key(Factories, f), f);
  }

  /** A factory without anything is deleted by the first call. */
  lemma BareFactoryGoesAtOnce(f: nat, limit: int)
    requires limit > 0
    ensures var rows := map[Key(Factories, f) := Row(None, None, None, None)];
            !Blocked(rows, f) && Calls([rows, map[]], f, limit, [Call({Key(Factories, f)}, 1, true, true)])
  {
    var fk := Key(Factories, f);
    var rows: Rows := map[fk := Row(None, None, None, None)];
    var call := Call({fk}, 1, true, true);
    assert Refs(rows[fk]) == {};
    assert Children(rows, f) == {} && rows - {fk} == map[];
    assert Ran(rows, f, limit, {fk}, map[], 1, true);
    assert CalledAt([rows, map[]], f, limit, [call], 0);
  }
}
