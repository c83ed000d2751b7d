/** The guard on nested runs, and the shape of every run tree grown under it. */
module SubRuns {
  import opened Options

  type RunId = nat

  datatype Run = Run(workflow: string, node: string, parent: Option<RunId>)
  type Runs = map<RunId, Run>

  /** Safety cap on the ancestor query. */
  const MAX_HOPS: nat := 256

  datatype Verdict = Accepted | ParentMissing | ChainTooLong | EntrypointCycle | WorkflowCycle | DepthExceeded

  /** A run and its ancestors, nearest first, at most hops of them. */
  function Ancestors(runs: Runs, id: RunId, hops: nat): (chain: seq<Run>)
    ensures |chain| <= hops
    decreases hops
  {
    if hops == 0 || id !in runs then []
    else
      [runs[id]] + match runs[id].parent
        case None => []
        case Some(parent) => Ancestors(runs, parent, hops - 1)
  }

  method CollectRunAncestors(runs: Runs, id: RunId, cap: nat) returns (chain: seq<Run>, verdict: Verdict)
    ensures chain == Ancestors(runs, id, cap)
    ensures verdict == if chain == [] then ParentMissing else if |chain| == cap then ChainTooLong else Accepted
  {
    chain := [];
    var next := Some(id);
    while next.Some? && |chain| < cap && next.value in runs
      invariant |chain| <= cap
      invariant Ancestors(runs, id, cap)
             == chain + if next.Some? then Ancestors(runs, next.value, cap - |chain|) else []
      decreases cap - |chain|
    {
      var run := runs[next.value];
      OneMoreAncestor(runs, chain, next.value, cap - |chain|);
      chain := chain + [run];
      next := run.parent;
    }
    verdict := if |chain| == 0 then ParentMissing else if |chain| == cap then ChainTooLong else Accepted;
  }

  lemma OneMoreAncestor(runs: Runs, chain: seq<Run>, id: RunId, hops: nat)
    requires id in runs && hops > 0
    ensures chain + Ancestors(runs, id, hops)
         == (chain + [runs[id]])
            + if runs[id].parent.Some? then Ancestors(runs, runs[id].parent.value, hops - 1) else []
  {
  }

  /** Nothing is left above the last run of the chain. */
  ghost predicate Complete(runs: Runs, id: RunId, chain: seq<Run>, ids: seq<RunId>) {
    && |ids| == |chain| > 0 && ids[0] == id
    && (forall i :: 0 <= i < |ids| ==> ids[i] in runs && chain[i] == runs[ids[i]])
    && (forall i :: 0 <= i < |ids| - 1 ==> chain[i].parent == Some(ids[i + 1]))
    && (chain[|chain| - 1].parent.Some? ==> chain[|chain| - 1].parent.value !in runs)
  }

  /** A chain shorter than the cap is the whole chain, for any table, even one whose parents form a cycle. */
  lemma {:induction false} ShortChainIsComplete(runs: Runs, id: RunId, hops: nat) returns (ids: seq<RunId>)
    requires 0 < |Ancestors(runs, id, hops)| < hops
    ensures Complete(runs, id, Ancestors(runs, id, hops), ids)
    decreases hops
  {
    var run := runs[id];
    if run.parent.Some? && run.parent.value in runs {
      var rest := ShortChainIsComplete(runs, run.parent.value, hops - 1);
      var later := Ancestors(runs, run.parent.value, hops - 1);
      ids := [id] + rest;
      assert Ancestors(runs, id, hops) == [run] + later;
      assert forall i :: 0 < i < |ids| ==> ids[i] == rest[i - 1] && ([run] + later)[i] == later[i - 1];
    } else {
      ids := [id];
    }
  }

  // ----- the three checks -----

  ghost predicate EntrypointIn(chain: seq<Run>, workflow: string, node: string) {
    exists r :: r in chain && r.workflow == workflow && r.node == node
  }

  method EntrypointInRuns(chain: seq<Run>, workflow: string, node: string) returns (found: bool)
    ensures found <==> EntrypointIn(chain, workflow, node)
  {
    for i := 0 to |chain|
      invariant forall r :: r in chain[..i] ==> !(r.workflow == workflow && r.node == node)
    {
      if chain[i].workflow == workflow && chain[i].node == node {
        return true;
      }
      assert chain[..i + 1] == chain[..i] + [chain[i]];
    }
    assert chain[..|chain|] == chain;
    return false;
  }

  ghost predicate ReturnsTo(chain: seq<Run>, workflow: string) {
    && chain != [] && chain[0].workflow != workflow
    && exists i :: 0 <= i < |chain| && chain[i].workflow == workflow
  }

  method WorkflowCycleInAncestors(chain: seq<Run>, workflow: string) returns (found: bool)
    ensures found <==> ReturnsTo(chain, workflow)
  {
    if |chain| == 0 || chain[0].workflow == workflow {
      return false;
    }
    for i := 1 to |chain|
      invariant forall j :: 0 <= j < i ==> chain[j].workflow != workflow
    {
      if chain[i].workflow == workflow {
        return true;
      }
    }
    return false;
  }

  /** How often the chain switches from one workflow to another. */
  function Crossings(chain: seq<Run>): nat {
    if |chain| < 2 then 0
    else
      var n := |chain| - 1;
      Crossings(chain[..n]) + if chain[n - 1].workflow != chain[n].workflow then 1 else 0
  }

  method CrossWorkflowDepthForSubRun(chain: seq<Run>, workflow: string) returns (depth: nat)
    ensures depth == if chain == [] then 0 else Crossings(chain) + if chain[0].workflow != workflow then 1 else 0
  {
    if |chain| == 0 {
      return 0;
    }
    depth := 0;
    if chain[0].workflow != workflow {
      depth := depth + 1;
    }
    ghost var hop := depth;
    for i := 0 to |chain| - 1
      invariant depth == Crossings(chain[..i + 1]) + hop
    {
      assert chain[..i + 2][..i + 1] == chain[..i + 1];
      if chain[i].workflow != chain[i + 1].workflow {
        depth := depth + 1;
      }
    }
    assert chain[..|chain|] == chain;
  }

  function Verify(runs: Runs, parent: Option<RunId>, workflow: string, node: string, maxDepth: int, cap: nat): Verdict {
    if parent.None? then Accepted
    else
      var chain := Ancestors(runs, parent.value, cap);
      if chain == [] then ParentMissing
      else if |chain| == cap then ChainTooLong
      else if node != "" && exists r :: r in chain && r.workflow == workflow && r.node == node then EntrypointCycle
      else if chain[0].workflow != workflow && exists i :: 0 <= i < |chain| && chain[i].workflow == workflow then WorkflowCycle
      else if Crossings(chain) + (if chain[0].workflow != workflow then 1 else 0) >= maxDepth then DepthExceeded
      else Accepted
  }

  method ValidateSubRunCreation(runs: Runs, parent: Option<RunId>, workflow: string, node: string, maxDepth: int)
    returns (verdict: Verdict)
    ensures verdict == Verify(runs, parent, workflow, node, maxDepth, MAX_HOPS)
  {
    if parent.None? {
      return Accepted;
    }
    var chain, loaded := CollectRunAncestors(runs, parent.value, MAX_HOPS);
    if loaded != Accepted {
      return loaded;
    }
    var repeated := EntrypointInRuns(chain, workflow, node);
    if node != "" && repeated {
      return EntrypointCycle;
    }
    var returns_ := WorkflowCycleInAncestors(chain, workflow);
    if returns_ {
      return WorkflowCycle;
    }
    var depth := CrossWorkflowDepthForSubRun(chain, workflow);
    if depth >= maxDepth {
      return DepthExceeded;
    }
    return Accepted;
  }

  // ----- the verdict, on the table of runs -----

  /** A run, its parent, the parent of that, and so on. */
  ghost predicate Path(runs: Runs, id: RunId, ids: seq<RunId>) {
    && ids != [] && ids[0] == id
    && (forall i :: 0 <= i < |ids| ==> ids[i] in runs)
    && (forall i :: 0 <= i < |ids| - 1 ==> runs[ids[i]].parent == Some(ids[i + 1]))
  }

  /** Up to a run without a parent, or whose parent is missing. */
  ghost predicate WholePath(runs: Runs, id: RunId, ids: seq<RunId>) {
    Path(runs, id, ids) && var last := runs[ids[|ids| - 1]]; last.parent.Some? ==> last.parent.value !in runs
  }

  lemma {:induction false} AncestorsAlong(runs: Runs, id: RunId, ids: seq<RunId>, hops: nat)
    requires Path(runs, id, ids) && |ids| <= hops && (|ids| == hops || WholePath(runs, id, ids))
    ensures |Ancestors(runs, id, hops)| == |ids|
    ensures forall i :: 0 <= i < |ids| ==> Ancestors(runs, id, hops)[i] == runs[ids[i]]
    decreases hops
  {
    if |ids| == 1 {
      assert runs[id].parent.Some? && hops > 1 ==> Ancestors(runs, runs[id].parent.value, hops - 1) == [];
    } else {
      var rest := ids[1..];
      assert rest[0] == ids[1] && rest[|rest| - 1] == ids[|ids| - 1];
      assert Path(runs, ids[1], rest);
      AncestorsAlong(runs, ids[1], rest, hops - 1);
    }
  }

  lemma {:induction false} SomePath(runs: Runs, id: RunId, hops: nat) returns (ids: seq<RunId>)
    requires id in runs && hops > 0
    ensures Path(runs, id, ids) && |ids| == |Ancestors(runs, id, hops)|
    decreases hops
  {
    var run := runs[id];
    if run.parent.Some? && run.parent.value in runs && hops > 1 {
      var rest := SomePath(runs, run.parent.value, hops - 1);
      ids := [id] + rest;
    } else {
      ids := [id];
    }
  }

  /** Without a parent a run is always accepted. A missing parent is the first error, a path of 256 runs the second. */
  lemma LoadingFailsIff(runs: Runs, parent: RunId, workflow: string, node: string, maxDepth: int)
    ensures Verify(runs, None, workflow, node, maxDepth, MAX_HOPS) == Accepted
    ensures Verify(runs, Some(parent), workflow, node, maxDepth, MAX_HOPS) == ParentMissing <==> parent !in runs
    ensures Verify(runs, Some(parent), workflow, node, maxDepth, MAX_HOPS) == ChainTooLong
            <==> exists ids :: Path(runs, parent, ids) && |ids| == 256
  {
    if parent in runs && |Ancestors(runs, parent, MAX_HOPS)| == MAX_HOPS {
      var ids := SomePath(runs, parent, MAX_HOPS);
    }
    if ids :| Path(runs, parent, ids) && |ids| == 256 {
      AncestorsAlong(runs, parent, ids, MAX_HOPS);
    }
  }

  predicate SwitchesAt(workflows: seq<string>, i: nat) {
    0 < i < |workflows| && workflows[i - 1] != workflows[i]
  }

  /** Where a chain switches from one workflow to another. */
  function Switches(workflows: seq<string>): set<nat> {
    set i: nat | i < |workflows| && SwitchesAt(workflows, i)
  }

  lemma {:induction false} CrossingsAreSwitches(chain: seq<Run>, workflows: seq<string>)
    requires |workflows| == |chain| && forall i :: 0 <= i < |chain| ==> workflows[i] == chain[i].workflow
    ensures Crossings(chain) == |Switches(workflows)|
  {
    if |chain| < 2 {
      assert Switches(workflows) == {};
    } else {
      var n := |chain| - 1;
      CrossingsAreSwitches(chain[..n], workflows[..n]);
      forall i: nat ensures SwitchesAt(workflows[..n], i) <==> SwitchesAt(workflows, i) && i != n {
      }
      assert Switches(workflows) == Switches(workflows[..n]) + if workflows[n - 1] != workflows[n] then {n} else {};
    }
  }

  lemma OneMoreSwitch(workflow: string, workflows: seq<string>)
    requires workflows != []
    ensures |Switches([workflow] + workflows)| == |Switches(workflows)| + if workflow != workflows[0] then 1 else 0
  {
    var longer := [workflow] + workflows;
    var some := Switches(workflows);
    var first: set<nat> := if workflow != workflows[0] then {1} else {};
    forall i: nat ensures i in Switches(longer) <==> i in Moved(some) || i in first {
      assert 0 < i < |longer| ==> longer[i] == workflows[i - 1];
      assert 1 < i < |longer| ==> longer[i - 1] == workflows[i - 2];
      MovedMember(some, i);
    }
    MovedSize(some);
    MovedMember(some, 1);
    assert Switches(longer) == Moved(some) + first;
  }

  function Moved(some: set<nat>): set<nat> {
    set i | i in some :: i + 1
  }

  lemma MovedMember(some: set<nat>, j: nat)
    ensures j in Moved(some) <==> j > 0 && j - 1 in some
  {
    if j > 0 && j - 1 in some {
      var i: nat := j - 1;
      assert i in some && i + 1 == j;
    }
  }

  lemma {:induction false} MovedSize(some: set<nat>)
    ensures |Moved(some)| == |some|
  {
    if some == {} {
      assert Moved(some) == {};
    } else {
      var x :| x in some;
      MovedSize(some - {x});
      forall j ensures j in Moved(some) <==> j in Moved(some - {x}) || j == x + 1 {
        MovedMember(some, j);
        MovedMember(some - {x}, j);
      }
      MovedMember(some - {x}, x + 1);
      assert Moved(some) == Moved(some - {x}) + {x + 1};
    }
  }

  function WorkflowsAlong(runs: Runs, ids: seq<RunId>): seq<string>
    requires forall i :: 0 <= i < |ids| ==> ids[i] in runs
  {
    seq(|ids|, i requires 0 <= i < |ids| => runs[ids[i]].workflow)
  }

  /** The other verdicts, in their order, on the whole path of the parent: the same workflow and node are on it; it has left
      the workflow that it would come back to; or it switches workflows as often as allowed already. */
  lemma VerdictIs(runs: Runs, parent: RunId, workflow: string, node: string, maxDepth: int, ids: seq<RunId>)
    requires WholePath(runs, parent, ids) && |ids| < 256
    ensures var visited := exists i :: 0 <= i < |ids| && runs[ids[i]].workflow == workflow && runs[ids[i]].node == node;
            var returns_ := runs[parent].workflow != workflow
                            && exists i :: 0 <= i < |ids| && runs[ids[i]].workflow == workflow;
            Verify(runs, Some(parent), workflow, node, maxDepth, MAX_HOPS)
            == if node != "" && visited then EntrypointCycle
               else if returns_ then WorkflowCycle
               else if |Switches([workflow] + WorkflowsAlong(runs, ids))| >= maxDepth then DepthExceeded
               else Accepted
  {
    var chain, workflows := Ancestors(runs, parent, MAX_HOPS), WorkflowsAlong(runs, ids);
    AncestorsAlong(runs, parent, ids, MAX_HOPS);
    CrossingsAreSwitches(chain, workflows);
    OneMoreSwitch(workflow, workflows);
    VisitedAlong(runs, chain, ids, workflow, node);
    LoadedVerdict(runs, parent, workflow, node, maxDepth, chain);
  }

  lemma VisitedAlong(runs: Runs, chain: seq<Run>, ids: seq<RunId>, workflow: string, node: string)
    requires |chain| == |ids| && forall i :: 0 <= i < |ids| ==> ids[i] in runs && chain[i] == runs[ids[i]]
    ensures EntrypointIn(chain, workflow, node)
            <==> exists i :: 0 <= i < |ids| && runs[ids[i]].workflow == workflow && runs[ids[i]].node == node
    ensures (exists i :: 0 <= i < |chain| && chain[i].workflow == workflow)
            <==> exists i :: 0 <= i < |ids| && runs[ids[i]].workflow == workflow
  {
    if i :| 0 <= i < |ids| && runs[ids[i]].workflow == workflow && runs[ids[i]].node == node {
      assert chain[i] in chain;
    }
    if i :| 0 <= i < |ids| && runs[ids[i]].workflow == workflow {
      assert chain[i].workflow == workflow;
    }
  }

  lemma LoadedVerdict(runs: Runs, parent: RunId, workflow: string, node: string, maxDepth: int, chain: seq<Run>)
    requires chain == Ancestors(runs, parent, MAX_HOPS) && 0 < |chain| < MAX_HOPS
    ensures Verify(runs, Some(parent), workflow, node, maxDepth, MAX_HOPS)
            == if node != "" && EntrypointIn(chain, workflow, node) then EntrypointCycle
               else if ReturnsTo(chain, workflow) then WorkflowCycle
               else if Crossings(chain) + (if chain[0].workflow != workflow then 1 else 0) >= maxDepth then DepthExceeded
               else Accepted
  {
  }

  // ----- well-shaped chains -----

  /** Each workflow is visited in one contiguous block. */
  ghost predicate Contiguous(chain: seq<Run>) {
    forall i, j, k :: 0 <= i < j < k < |chain| && chain[i].workflow == chain[k].workflow ==>
      chain[j].workflow == chain[i].workflow
  }

  /** No entrypoint is visited twice. */
  ghost predicate NoRepeat(chain: seq<Run>) {
    forall i, j :: 0 <= i < j < |chain| ==> (chain[i].workflow, chain[i].node) != (chain[j].workflow, chain[j].node)
  }

  ghost function Workflows(chain: seq<Run>): set<string> {
    set r | r in chain :: r.workflow
  }

  ghost function Entrypoints(chain: seq<Run>): set<(string, string)> {
    set r | r in chain :: (r.workflow, r.node)
  }

  ghost predicate WellShaped(chain: seq<Run>, maxDepth: int) {
    Contiguous(chain) && NoRepeat(chain) && |Workflows(chain)| <= maxDepth
  }

  lemma WorkflowsJoin(a: seq<Run>, b: seq<Run>)
    ensures Workflows(a + b) == Workflows(a) + Workflows(b)
  {
    assert forall r :: r in a + b <==> r in a || r in b;
  }

  lemma WorkflowsOfOne(run: Run)
    ensures Workflows([run]) == {run.workflow}
  {
    assert run in [run];
  }

  lemma OneMoreWorkflow(workflows: set<string>, w: string)
    ensures |workflows + {w}| == |workflows| + if w in workflows then 0 else 1
  {
    if w in workflows {
      assert workflows + {w} == workflows;
    }
  }

  /** A chain that leaves a workflow enters one it has not visited. */
  lemma LeavingIsNew(chain: seq<Run>, n: nat)
    requires Contiguous(chain) && 0 < n < |chain| && chain[n - 1].workflow != chain[n].workflow
    ensures chain[n].workflow !in Workflows(chain[..n])
  {
    forall r | r in chain[..n] ensures r.workflow != chain[n].workflow {
      var i :| 0 <= i < n && chain[..n][i] == r;
      assert chain[i] == r;
    }
  }

  lemma LastAddsWorkflow(chain: seq<Run>, n: nat)
    requires n == |chain| - 1
    ensures |Workflows(chain)| == |Workflows(chain[..n])| + if chain[n].workflow in Workflows(chain[..n]) then 0 else 1
  {
    WorkflowsJoin(chain[..n], [chain[n]]);
    WorkflowsOfOne(chain[n]);
    assert chain == chain[..n] + [chain[n]];
    OneMoreWorkflow(Workflows(chain[..n]), chain[n].workflow);
  }

  /** A contiguous chain visits one workflow more than it has crossings. */
  lemma {:induction false} ContiguousCount(chain: seq<Run>, n: nat)
    requires Contiguous(chain) && 0 < n <= |chain|
    ensures |Workflows(chain[..n])| == Crossings(chain[..n]) + 1
  {
    var prefix := chain[..n];
    LastAddsWorkflow(prefix, n - 1);
    assert prefix[..n - 1] == chain[..n - 1];
    if n == 1 {
      assert Workflows(chain[..0]) == {};
    } else {
      ContiguousCount(chain, n - 1);
      if chain[n - 2].workflow == chain[n - 1].workflow {
        assert prefix[..n - 1][n - 2] == chain[n - 2];
      } else {
        LeavingIsNew(chain, n - 1);
      }
    }
  }

  /** A chain without repeated entrypoints is no longer than the number of entrypoints it visits. */
  lemma {:induction false} LengthIsEntrypointCount(chain: seq<Run>)
    requires NoRepeat(chain)
    ensures |chain| == |Entrypoints(chain)|
  {
    if chain == [] {
      assert Entrypoints(chain) == {};
    } else {
      var n := |chain| - 1;
      var last := (chain[n].workflow, chain[n].node);
      LengthIsEntrypointCount(chain[..n]);
      assert chain == chain[..n] + [chain[n]];
      assert Entrypoints(chain) == Entrypoints(chain[..n]) + {last};
      forall r | r in chain[..n] ensures (r.workflow, r.node) != last {
        var i :| 0 <= i < n && chain[i] == r;
      }
      assert last !in Entrypoints(chain[..n]);
    }
  }

  lemma ContiguousExtension(run: Run, chain: seq<Run>)
    requires Contiguous(chain) && chain != []
    ensures Contiguous([run] + chain) <==> !ReturnsTo(chain, run.workflow)
  {
    var longer := [run] + chain;
    if ReturnsTo(chain, run.workflow) {
      var k :| 0 <= k < |chain| && chain[k].workflow == run.workflow;
      assert longer[0].workflow == longer[k + 1].workflow && longer[1].workflow != longer[0].workflow;
    } else {
      forall i, j, k | 0 <= i < j < k < |longer| && longer[i].workflow == longer[k].workflow
        ensures longer[j].workflow == longer[i].workflow
      {
        if i == 0 {
          assert chain[k - 1].workflow == run.workflow;
          assert chain[0].workflow == run.workflow;
          assert j == 1 || chain[j - 1].workflow == chain[0].workflow;
        } else {
          assert chain[j - 1].workflow == chain[i - 1].workflow;
        }
      }
    }
  }

  lemma WorkflowsExtension(run: Run, chain: seq<Run>)
    requires Contiguous(chain) && chain != [] && !ReturnsTo(chain, run.workflow)
    ensures |Workflows([run] + chain)| == Crossings(chain) + 1 + if chain[0].workflow != run.workflow then 1 else 0
  {
    ContiguousCount(chain, |chain|);
    assert chain[..|chain|] == chain;
    WorkflowsJoin([run], chain);
    WorkflowsOfOne(run);
    if chain[0].workflow == run.workflow {
      assert chain[0] in chain;
    } else {
      forall r | r in chain ensures r.workflow != run.workflow {
        var i :| 0 <= i < |chain| && chain[i] == r;
      }
      assert run.workflow !in Workflows(chain);
    }
    OneMoreWorkflow(Workflows(chain), run.workflow);
    assert Workflows([run]) + Workflows(chain) == Workflows(chain) + {run.workflow};
  }

  /** What the guard asks of a chain and a sub-run below it. */
  ghost predicate Passes(chain: seq<Run>, run: Run, maxDepth: int)
    requires chain != []
  {
    && !EntrypointIn(chain, run.workflow, run.node)
    && !ReturnsTo(chain, run.workflow)
    && Crossings(chain) + (if chain[0].workflow != run.workflow then 1 else 0) < maxDepth
  }

  lemma AcceptedIffPasses(runs: Runs, parent: RunId, run: Run, maxDepth: int, cap: nat)
    requires 0 < |Ancestors(runs, parent, cap)| < cap && run.node != ""
    ensures Verify(runs, Some(parent), run.workflow, run.node, maxDepth, cap) == Accepted
            <==> Passes(Ancestors(runs, parent, cap), run, maxDepth)
  {
  }

  lemma WellShapedIffPasses(chain: seq<Run>, run: Run, maxDepth: int)
    requires chain != [] && Contiguous(chain) && NoRepeat(chain)
    ensures WellShaped([run] + chain, maxDepth) <==> Passes(chain, run, maxDepth)
  {
    ContiguousExtension(run, chain);
    if !ReturnsTo(chain, run.workflow) {
      WorkflowsExtension(run, chain);
    }
    NoRepeatExtension(run, chain);
  }

  /** On a well-shaped chain the guard accepts exactly the sub-runs that leave the chain well-shaped. */
  lemma AcceptedIffWellShaped(runs: Runs, parent: RunId, workflow: string, node: string, maxDepth: int, cap: nat)
    requires 0 < |Ancestors(runs, parent, cap)| < cap
    requires Contiguous(Ancestors(runs, parent, cap)) && NoRepeat(Ancestors(runs, parent, cap))
    requires node != ""
    ensures Verify(runs, Some(parent), workflow, node, maxDepth, cap) == Accepted <==>
            WellShaped([Run(workflow, node, Some(parent))] + Ancestors(runs, parent, cap), maxDepth)
  {
    var run := Run(workflow, node, Some(parent));
    AcceptedIffPasses(runs, parent, run, maxDepth, cap);
    WellShapedIffPasses(Ancestors(runs, parent, cap), run, maxDepth);
  }

  lemma NoRepeatExtension(run: Run, chain: seq<Run>)
    requires NoRepeat(chain)
    ensures NoRepeat([run] + chain) <==> !EntrypointIn(chain, run.workflow, run.node)
  {
    var longer := [run] + chain;
    if EntrypointIn(chain, run.workflow, run.node) {
      var r :| r in chain && r.workflow == run.workflow && r.node == run.node;
      var i :| 0 <= i < |chain| && chain[i] == r;
      assert longer[0] == run && longer[i + 1] == r;
    } else {
      forall i, j | 0 <= i < j < |longer|
        ensures (longer[i].workflow, longer[i].node) != (longer[j].workflow, longer[j].node)
      {
        assert longer[j] == chain[j - 1] && chain[j - 1] in chain;
      }
    }
  }

  // ----- trees grown under the guard -----

  datatype Creation = Root(id: RunId, workflow: string, node: string)
                    | Sub(id: RunId, parent: RunId, workflow: string, node: string, maxDepth: int)

  ghost predicate Allowed(runs: Runs, c: Creation, limit: int, cap: nat) {
    && c.id !in runs
    && (c.Sub? ==> c.node != "" && 1 <= c.maxDepth <= limit
                   && Verify(runs, Some(c.parent), c.workflow, c.node, c.maxDepth, cap) == Accepted)
  }

  function Create(runs: Runs, c: Creation): Runs {
    runs[c.id := Run(c.workflow, c.node, if c.Sub? then Some(c.parent) else None)]
  }

  ghost predicate Grown(creations: seq<Creation>, limit: int, cap: nat, runs: Runs) {
    if creations == [] then runs == map[]
    else
      var n := |creations| - 1;
      exists before :: Grown(creations[..n], limit, cap, before) && Allowed(before, creations[n], limit, cap)
                       && runs == Create(before, creations[n])
  }

  ghost predicate NoDangling(runs: Runs) {
    forall id :: id in runs && runs[id].parent.Some? ==> runs[id].parent.value in runs
  }

  /** The run reaches a root within the cap, along a well-shaped chain. */
  ghost predicate HealthyChain(chain: seq<Run>, limit: int) {
    WellShaped(chain, limit) && chain != [] && chain[|chain| - 1].parent.None?
  }

  ghost predicate Healthy(runs: Runs, limit: int, cap: nat) {
    NoDangling(runs) && forall id :: id in runs ==> HealthyChain(Ancestors(runs, id, cap), limit)
  }

  lemma {:induction false} AncestorsUnaffected(runs: Runs, id: RunId, fresh_: RunId, run: Run, hops: nat)
    requires NoDangling(runs) && id in runs && fresh_ !in runs
    ensures Ancestors(runs[fresh_ := run], id, hops) == Ancestors(runs, id, hops)
    decreases hops
  {
    if hops > 0 && runs[id].parent.Some? {
      AncestorsUnaffected(runs, runs[id].parent.value, fresh_, run, hops - 1);
    }
  }

  lemma {:induction false} LastHopNotNeeded(runs: Runs, id: RunId, hops: nat)
    requires |Ancestors(runs, id, hops)| < hops
    ensures Ancestors(runs, id, hops - 1) == Ancestors(runs, id, hops)
    decreases hops
  {
    if id in runs && runs[id].parent.Some? {
      LastHopNotNeeded(runs, runs[id].parent.value, hops - 1);
    }
  }

  /** The chain of a new sub-run is the new run on top of the chain it was checked against. */
  lemma ChainOfSubRun(runs: Runs, id: RunId, run: Run, parent: RunId, cap: nat)
    requires NoDangling(runs) && id !in runs && run.parent == Some(parent)
    requires 0 < |Ancestors(runs, parent, cap)| < cap
    ensures Ancestors(runs[id := run], id, cap) == [run] + Ancestors(runs, parent, cap)
  {
    var next := runs[id := run];
    LastHopNotNeeded(runs, parent, cap);
    AncestorsUnaffected(runs, parent, id, run, cap - 1);
    assert next[id] == run;
    assert Ancestors(next, id, cap) == [run] + Ancestors(next, parent, cap - 1);
  }

  lemma ParentChainIsHealthy(runs: Runs, c: Creation, limit: int, cap: nat)
    requires Healthy(runs, limit, cap) && Allowed(runs, c, limit, cap) && c.Sub?
    ensures c.parent in runs && 0 < |Ancestors(runs, c.parent, cap)| < cap
    ensures HealthyChain(Ancestors(runs, c.parent, cap), limit)
  {
    assert c.parent in runs;
  }

  lemma AllowedIsWellShaped(runs: Runs, c: Creation, limit: int, cap: nat)
    requires Healthy(runs, limit, cap) && Allowed(runs, c, limit, cap) && c.Sub?
    ensures c.parent in runs && 0 < |Ancestors(runs, c.parent, cap)| < cap
    ensures HealthyChain([Run(c.workflow, c.node, Some(c.parent))] + Ancestors(runs, c.parent, cap), limit)
  {
    ParentChainIsHealthy(runs, c, limit, cap);
    AcceptedIffWellShaped(runs, c.parent, c.workflow, c.node, c.maxDepth, cap);
  }

  lemma NewRunIsHealthy(runs: Runs, c: Creation, limit: int, cap: nat)
    requires Healthy(runs, limit, cap) && Allowed(runs, c, limit, cap) && limit >= 1 && cap >= 1
    ensures HealthyChain(Ancestors(Create(runs, c), c.id, cap), limit)
  {
    var run := Create(runs, c)[c.id];
    if c.Root? {
      assert Ancestors(Create(runs, c), c.id, cap) == [run];
      WorkflowsOfOne(run);
    } else {
      AllowedIsWellShaped(runs, c, limit, cap);
      ChainOfSubRun(runs, c.id, run, c.parent, cap);
    }
  }

  lemma OldRunStaysHealthy(runs: Runs, c: Creation, limit: int, cap: nat, id: RunId)
    requires Healthy(runs, limit, cap) && c.id !in runs && id in runs
    ensures HealthyChain(Ancestors(Create(runs, c), id, cap), limit)
  {
    AncestorsUnaffected(runs, id, c.id, Create(runs, c)[c.id], cap);
  }

  lemma CreateKeepsHealthy(runs: Runs, c: Creation, limit: int, cap: nat)
    requires Healthy(runs, limit, cap) && Allowed(runs, c, limit, cap) && limit >= 1 && cap >= 1
    ensures Healthy(Create(runs, c), limit, cap)
  {
    var next := Create(runs, c);
    forall id | id in next ensures HealthyChain(Ancestors(next, id, cap), limit) {
      if id == c.id {
        NewRunIsHealthy(runs, c, limit, cap);
      } else {
        OldRunStaysHealthy(runs, c, limit, cap, id);
      }
    }
    ParentsStay(runs, c, limit, cap);
  }

  lemma ParentsStay(runs: Runs, c: Creation, limit: int, cap: nat)
    requires Healthy(runs, limit, cap) && Allowed(runs, c, limit, cap)
    ensures NoDangling(Create(runs, c))
  {
    if c.Sub? {
      AllowedIsWellShaped(runs, c, limit, cap);
    }
  }

  lemma {:induction false} GrownIsHealthy(creations: seq<Creation>, limit: int, cap: nat, runs: Runs)
    requires Grown(creations, limit, cap, runs) && limit >= 1 && cap >= 1
    ensures Healthy(runs, limit, cap)
  {
    if creations != [] {
      var n := |creations| - 1;
      var before :| Grown(creations[..n], limit, cap, before) && Allowed(before, creations[n], limit, cap)
                    && runs == Create(before, creations[n]);
      GrownIsHealthy(creations[..n], limit, cap, before);
      CreateKeepsHealthy(before, creations[n], limit, cap);
    }
  }

  /** Over every tree grown by guarded creations, the chain from any run to its root is complete, visits each
      workflow in one block, repeats no entrypoint, touches at most the allowed number of workflows, and is
      as long as the number of its entrypoints. */
  lemma EveryChainIsBounded(creations: seq<Creation>, limit: int, cap: nat, runs: Runs, id: RunId)
    requires Grown(creations, limit, cap, runs) && limit >= 1 && cap >= 1 && id in runs
    ensures var chain := Ancestors(runs, id, cap);
      && chain != [] && chain[0] == runs[id] && chain[|chain| - 1].parent.None?
      && Contiguous(chain) && NoRepeat(chain)
      && |Workflows(chain)| <= limit
      && |chain| == |Entrypoints(chain)|
  {
    GrownIsHealthy(creations, limit, cap, runs);
    LengthIsEntrypointCount(Ancestors(runs, id, cap));
  }
}
