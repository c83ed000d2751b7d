/** Deleting the rows that are still scoped to a canvas after its runs are gone, within a budget. */
module CanvasCleanup {
  import opened BoundedSets

  function Total(counts: seq<nat>): nat {
    if counts == [] then 0 else Total(counts[..|counts| - 1]) + counts[|counts| - 1]
  }

  function Sizes(tables: seq<set<nat>>): (sizes: seq<nat>)
    ensures |sizes| == |tables| && forall i :: 0 <= i < |tables| ==> sizes[i] == |tables[i]|
  {
    seq(|tables|, i requires 0 <= i < |tables| => |tables[i]|)
  }

  lemma TotalAppend(counts: seq<nat>, count: nat)
    ensures Total(counts + [count]) == Total(counts) + count
  {
    assert (counts + [count])[..|counts|] == counts;
  }

  lemma {:induction false} TotalPart(counts: seq<nat>, n: nat)
    requires n <= |counts|
    ensures Total(counts[..n]) <= Total(counts)
    ensures Total(counts[..n]) == Total(counts) ==> forall i :: n <= i < |counts| ==> counts[i] == 0
  {
    if n < |counts| {
      TotalPart(counts[..|counts| - 1], n);
      assert counts[..|counts| - 1][..n] == counts[..n];
    } else {
      assert counts[..n] == counts;
    }
  }

  /**
   * The first k tables have been dealt with: what is gone is counted, and a table is only touched once all before it
   * are empty.
   */
  ghost predicate Deleted(before: seq<set<nat>>, now: seq<set<nat>>, summary: seq<nat>, k: nat) {
    && |summary| == k <= |before| == |now|
    && (forall i :: 0 <= i < k ==> now[i] <= before[i] && |before[i]| == |now[i]| + summary[i])
    && (forall i :: k <= i < |now| ==> now[i] == before[i])
    && (forall i, j :: 0 <= i < j < k && summary[j] > 0 ==> now[i] == {})
  }

  /** As many rows are gone as the budget allows, and all of them while it is not used up. */
  ghost predicate WithinBudget(before: seq<set<nat>>, now: seq<set<nat>>, summary: seq<nat>, maxRecords: int, k: nat)
    requires k <= |before| && k <= |now|
  {
    && Total(summary) == Least(Total(Sizes(before)[..k]), if maxRecords <= 0 then 0 else maxRecords)
    && (Total(summary) < maxRecords ==> forall i :: 0 <= i < k ==> now[i] == {})
  }

  lemma TotalUpTo(before: seq<set<nat>>, k: nat)
    requires k < |before|
    ensures Total(Sizes(before)[..k + 1]) == Total(Sizes(before)[..k]) + |before[k]|
  {
    assert Sizes(before)[..k + 1] == Sizes(before)[..k] + [|before[k]|];
    TotalAppend(Sizes(before)[..k], |before[k]|);
  }

  lemma OneMoreDeleted(
      before: seq<set<nat>>, now: seq<set<nat>>, summary: seq<nat>, maxRecords: int, k: nat, doomed: set<nat>)
    requires Deleted(before, now, summary, k) && WithinBudget(before, now, summary, maxRecords, k)
    requires k < |now| && Total(summary) < maxRecords && IsPart(doomed, now[k], maxRecords - Total(summary))
    ensures Deleted(before, now[k := now[k] - doomed], summary + [|doomed|], k + 1)
  {
    Smaller(doomed, now[k]);
  }

  lemma OneMoreTable(
      before: seq<set<nat>>, now: seq<set<nat>>, summary: seq<nat>, maxRecords: int, k: nat, doomed: set<nat>)
    requires Deleted(before, now, summary, k) && WithinBudget(before, now, summary, maxRecords, k)
    requires k < |now| && Total(summary) < maxRecords && IsPart(doomed, now[k], maxRecords - Total(summary))
    ensures Deleted(before, now[k := now[k] - doomed], summary + [|doomed|], k + 1)
    ensures WithinBudget(before, now[k := now[k] - doomed], summary + [|doomed|], maxRecords, k + 1)
  {
    OneMoreDeleted(before, now, summary, maxRecords, k, doomed);
    TotalAppend(summary, |doomed|);
    TotalUpTo(before, k);
    Smaller(doomed, now[k]);
  }

  lemma BudgetUsedUp(before: seq<set<nat>>, now: seq<set<nat>>, summary: seq<nat>, maxRecords: int, k: nat)
    requires Deleted(before, now, summary, k) && WithinBudget(before, now, summary, maxRecords, k)
    requires Total(summary) >= maxRecords
    ensures Deleted(before, now, Padded(summary, |now|), |now|)
    ensures WithinBudget(before, now, Padded(summary, |now|), maxRecords, |now|)
  {
    TotalPart(Sizes(before), k);
    assert Sizes(before)[..|now|] == Sizes(before);
  }

  lemma AllTablesDone(before: seq<set<nat>>, now: seq<set<nat>>, summary: seq<nat>, maxRecords: int)
    requires Deleted(before, now, summary, |now|) && WithinBudget(before, now, summary, maxRecords, |now|)
    ensures Total(summary) == Least(Total(Sizes(before)), if maxRecords <= 0 then 0 else maxRecords)
    ensures before != [] ==> (Total(summary) < maxRecords <==> Total(Sizes(before)) < maxRecords)
    ensures Total(summary) < maxRecords ==> forall i :: 0 <= i < |now| ==> now[i] == {}
  {
    assert Sizes(before)[..|now|] == Sizes(before);
  }

  lemma NoTableYet(before: seq<set<nat>>, maxRecords: int)
    ensures Deleted(before, before, [], 0) && WithinBudget(before, before, [], maxRecords, 0)
  {
    assert Sizes(before)[..0] == [];
  }

  /** The tables that have counts were dealt with, and the next statement was refused: there was some budget left for it. */
  ghost predicate Refused(
      before: seq<set<nat>>, now: seq<set<nat>>, counts: seq<nat>, doomed: set<nat>, maxRecords: int,
      refuses: (nat, set<nat>) -> bool) {
    && |counts| < |now| && Deleted(before, now, counts, |counts|) && WithinBudget(before, now, counts, maxRecords, |counts|)
    && Total(counts) < maxRecords && IsPart(doomed, now[|counts|], maxRecords - Total(counts))
    && refuses(|counts|, doomed)
  }

  /** No statement that deleted anything was refused. */
  ghost predicate NoneRefused(before: seq<set<nat>>, now: seq<set<nat>>, refuses: (nat, set<nat>) -> bool)
    requires |before| == |now|
  {
    forall k :: 0 <= k < |now| && now[k] != before[k] ==> !refuses(k, before[k] - now[k])
  }

  lemma OneMoreNotRefused(
      before: seq<set<nat>>, now: seq<set<nat>>, k: nat, doomed: set<nat>, refuses: (nat, set<nat>) -> bool)
    requires |before| == |now| && NoneRefused(before, now, refuses)
    requires k < |now| && now[k] == before[k] && doomed <= now[k] && !refuses(k, doomed)
    ensures NoneRefused(before, now[k := now[k] - doomed], refuses)
  {
    assert before[k] - (now[k] - doomed) == doomed;
  }

  /** The rows of one canvas in its six tables, from requests and stored values to executions and runs. */
  class Canvas {
    var tables: seq<set<nat>>

    constructor (tables: seq<set<nat>>)
      ensures this.tables == tables
    {
      this.tables := tables;
    }

    /**
     * How many rows of each table a call has deleted, and whether none is left as far as the call can tell. The database
     * may refuse a statement because other rows refer to what it would delete; the call then fails, and the tables before
     * that one have been dealt with.
     */
    method DeleteRemainingResources(maxRecords: int, refuses: (nat, set<nat>) -> bool)
      returns (summary: seq<nat>, done: bool, ok: bool)
      modifies this
      ensures ok ==> Deleted(old(tables), tables, summary, |tables|)
      ensures ok ==> Total(summary) == Least(Total(Sizes(old(tables))), if maxRecords <= 0 then 0 else maxRecords)
      ensures ok && old(tables) != [] ==> (done <==> Total(Sizes(old(tables))) < maxRecords)
      ensures done ==> ok && forall i :: 0 <= i < |tables| ==> tables[i] == {}
      ensures |tables| == |old(tables)| && NoneRefused(old(tables), tables, refuses)
      ensures !ok ==>
        summary == [] && exists counts, doomed :: Refused(old(tables), tables, counts, doomed, maxRecords, refuses)
    {
      summary := [];
      ghost var before := tables;
      NoTableYet(before, maxRecords);
      for k := 0 to |tables|
        invariant |tables| == |before| && NoneRefused(before, tables, refuses)
        invariant Deleted(before, tables, summary, k) && WithinBudget(before, tables, summary, maxRecords, k)
      {
        if Total(summary) >= maxRecords {
          BudgetUsedUp(before, tables, summary, maxRecords, k);
          summary := Padded(summary, |tables|);
          break;
        }
        var doomed := TakeSome(tables[k], maxRecords - Total(summary));
        if refuses(k, doomed) {
          assert Refused(before, tables, summary, doomed, maxRecords, refuses);
          return [], false, false;
        }
        OneMoreTable(before, tables, summary, maxRecords, k, doomed);
        OneMoreNotRefused(before, tables, k, doomed, refuses);
        tables := tables[k := tables[k] - doomed];
        var count: nat := |doomed|;
        summary := summary + [count];
      }
      AllTablesDone(before, tables, summary, maxRecords);
      done, ok := Total(summary) < maxRecords, true;
    }
  }

  /** Counts that were never set are zero. */
  function Padded(counts: seq<nat>, n: nat): (r: seq<nat>)
    requires |counts| <= n
    ensures |r| == n && counts <= r && forall i :: |counts| <= i < n ==> r[i] == 0
    ensures Total(r) == Total(counts)
    decreases n - |counts|
  {
    if |counts| == n then counts
    else
      TotalAppend(counts, 0);
      Padded(counts + [0], n)
  }
}
