/** The protocol by which callers share one upstream provider session per user and canvas. */
module AgentSessions {
  import opened Options

  type RowId = nat
  type ProviderId = nat
  type CallId = nat

  datatype Key = Key(organization: string, user: string, canvas: string)
  datatype Status = Idle | Streaming | Failed | Terminated
  datatype Row = Row(key: Key, provider: ProviderId, revision: string, status: Status)
  type Rows = map<RowId, Row>

  /** The answer of a transaction that may or may not have work left for its caller. */
  datatype Verdict = NotFound | Busy | AlreadyReplaced(session: Row) | Replaceable(session: Row)

  /** The check both transactions of a replacement make under the row lock. */
  function Judge(rows: Rows, id: RowId, stale: Row, requireStaleSchema: bool, revision: string): Verdict {
    if id !in rows then NotFound
    else
      var locked := rows[id];
      if locked.status == Streaming then Busy
      else if locked.provider != stale.provider then AlreadyReplaced(locked)
      else if requireStaleSchema && locked.revision == revision then AlreadyReplaced(locked)
      else Replaceable(locked)
  }

  /** The row is there, idle or failed, still has the session that was found stale, and for a refresh another revision. */
  predicate CanReplace(rows: Rows, id: RowId, stale: Row, requireStaleSchema: bool, revision: string) {
    && id in rows && rows[id].status != Streaming && rows[id].provider == stale.provider
    && (requireStaleSchema ==> rows[id].revision != revision)
  }

  function Installed(row: Row, provider: ProviderId, revision: string): Row {
    row.(provider := provider, revision := revision, status := Idle)
  }

  ghost predicate HasKey(rows: Rows, key: Key) {
    exists id :: id in rows && rows[id].key == key
  }

  function Without(rows: Rows, key: Key): Rows {
    map id | id in rows && rows[id].key != key :: rows[id]
  }

  ghost predicate UniqueKeys(rows: Rows) {
    forall i, j :: i in rows && j in rows && i != j ==> rows[i].key != rows[j].key
  }

  ghost predicate IsStreaming(rows: Rows, key: Key) {
    exists id :: id in rows && rows[id].key == key && rows[id].status == Streaming
  }

  ghost predicate HasProvider(rows: Rows, key: Key, provider: ProviderId) {
    exists id :: id in rows && rows[id].key == key && rows[id].provider == provider
  }

  /** How a swap ends: refused, without an upstream session, with one to clean up, or with the one it retires. */
  datatype SwapResult = Refused | NotCreated | MustCleanUp(created: ProviderId) | Done(retired: Option<ProviderId>)

  /** The session table and its transactions. */
  class SessionTable {
    var rows: Rows

    constructor ()
      ensures rows == map[]
    {
      rows := map[];
    }

    method FindByKey(key: Key) returns (found: Option<RowId>)
      ensures found.Some? ==> found.value in rows && rows[found.value].key == key
      ensures found.None? ==> !HasKey(rows, key)
    {
      var rest := rows.Keys;
      while rest != {}
        invariant rest <= rows.Keys
        invariant forall id :: id in rows && id !in rest ==> rows[id].key != key
        decreases rest
      {
        var id :| id in rest;
        if rows[id].key == key {
          return Some(id);
        }
        rest := rest - {id};
      }
      return None;
    }

    method ProviderSessionRecoveryTarget(id: RowId, stale: Row, requireStaleSchema: bool, revision: string)
      returns (verdict: Verdict)
      ensures verdict == Judge(rows, id, stale, requireStaleSchema, revision)
      ensures verdict.NotFound? <==> id !in rows
      ensures verdict.Busy? <==> id in rows && rows[id].status == Streaming
      ensures verdict.Replaceable? <==>
                && id in rows && rows[id].status != Streaming && rows[id].provider == stale.provider
                && (requireStaleSchema ==> rows[id].revision != revision)
      ensures verdict.AlreadyReplaced? || verdict.Replaceable? ==> id in rows && verdict.session == rows[id]
    {
      if id !in rows {
        return NotFound;
      }
      var locked := rows[id];
      if locked.status == Streaming {
        return Busy;
      }
      if locked.provider != stale.provider {
        return AlreadyReplaced(locked);
      }
      if requireStaleSchema && locked.revision == revision {
        return AlreadyReplaced(locked);
      }
      return Replaceable(locked);
    }

    /** Compare and install: replaces the provider session unless the row has moved on meanwhile. */
    method InstallRecoveredProviderSession(id: RowId, stale: Row, provider: ProviderId, requireStaleSchema: bool,
                                           revision: string)
      returns (verdict: Verdict)
      modifies this
      ensures verdict == Judge(old(rows), id, stale, requireStaleSchema, revision)
      ensures verdict.Replaceable? <==>
                && id in old(rows) && old(rows)[id].status != Streaming && old(rows)[id].provider == stale.provider
                && (requireStaleSchema ==> old(rows)[id].revision != revision)
      ensures verdict.Replaceable? ==> rows == old(rows)[id := Row(old(rows)[id].key, provider, revision, Idle)]
      ensures verdict.NotFound? <==> id !in old(rows)
      ensures verdict.Busy? <==> id in old(rows) && old(rows)[id].status == Streaming
      ensures !verdict.Replaceable? ==> rows == old(rows)
    {
      verdict := ProviderSessionRecoveryTarget(id, stale, requireStaleSchema, revision);
      if verdict.Replaceable? {
        var locked := verdict.session;
        locked := locked.(provider := provider);
        locked := locked.(revision := revision);
        locked := locked.(status := Idle);
        rows := rows[id := locked];
      }
    }

    method DeleteByKey(key: Key)
      modifies this
      ensures rows == Without(old(rows), key)
    {
      rows := map r | r in rows && rows[r].key != key :: rows[r];
    }

    /** Deletes the session of the key, if any, creates one upstream and inserts a fresh row, all under the key's advisory
        lock. It refuses to delete a streaming session. When a later part fails, the deletion is rolled back. */
    method SwapCanvasSession(key: Key, id: RowId, upstream: Option<ProviderId>, revision: string, databaseFails: bool)
      returns (result: SwapResult)
      requires UniqueKeys(rows)
      modifies this
      ensures result.Refused? <==> IsStreaming(old(rows), key)
      ensures result.NotCreated? <==> !IsStreaming(old(rows), key) && upstream.None?
      ensures result.MustCleanUp? <==> !IsStreaming(old(rows), key) && upstream.Some? && databaseFails
      ensures result.MustCleanUp? ==> result.created == upstream.value
      ensures result.Done? ==> rows == Without(old(rows), key)[id := Row(key, upstream.value, revision, Idle)]
      ensures result.Done? ==>
                if HasKey(old(rows), key)
                then result.retired.Some? && HasProvider(old(rows), key, result.retired.value)
                else result.retired.None?
      ensures !result.Done? ==> rows == old(rows)
    {
      var before := rows;
      var found := FindByKey(key);
      var retired := None;
      if found.Some? {
        if rows[found.value].status == Streaming {
          return Refused;
        }
        retired := Some(rows[found.value].provider);
      }
      DeleteByKey(key);
      if upstream.None? {
        rows := before;
        return NotCreated;
      }
      if databaseFails {
        rows := before;
        return MustCleanUp(upstream.value);
      }
      rows := rows[id := Row(key, upstream.value, revision, Idle)];
      return Done(retired);
    }

    /** Returns the session of the key, or creates one upstream and inserts its row; a session created upstream stays
        there when the insert fails. */
    method ProvisionSession(key: Key, id: RowId, upstream: Option<ProviderId>, revision: string, databaseFails: bool)
      returns (session: Option<RowId>)
      modifies this
      ensures session.Some? <==> HasKey(old(rows), key) || (upstream.Some? && !databaseFails)
      ensures session.Some? ==> session.value in rows && rows[session.value].key == key
      ensures HasKey(old(rows), key) || session.None? ==> rows == old(rows)
      ensures !HasKey(old(rows), key) && session.Some?
              ==> session == Some(id) && rows == old(rows)[id := Row(key, upstream.value, revision, Idle)]
    {
      var found := FindByKey(key);
      if found.Some? {
        return found;
      }
      if upstream.None? || databaseFails {
        return None;
      }
      rows := rows[id := Row(key, upstream.value, revision, Idle)];
      return Some(id);
    }
  }

  // ----- interleaved calls -----

  /** How far a call has got. */
  datatype Call =
    | Loaded(id: RowId, stale: Row)
    | Checking(id: RowId, stale: Row, refresh: bool, revision: string)
    | Creating(id: RowId, stale: Row, refresh: bool, revision: string)
    | Installing(id: RowId, stale: Row, refresh: bool, revision: string, created: ProviderId)
    | Resetting(key: Key, revision: string)
    | Swapping(key: Key, revision: string, seen: Option<Row>)
    | Discarding(created: ProviderId)
    | Retiring(retired: ProviderId, created: ProviderId)
    | Returned(made: Option<ProviderId>)
    | ProvisionReturned(made: Option<ProviderId>)

  /** What changed a row's provider session, or deleted the row. */
  datatype Event =
    | Replaced(stale: ProviderId, new_: ProviderId, was: Status, refresh: bool)
    | Swapped(seen: Option<Row>, deleted: Option<Row>, new_: ProviderId)
    | Removed(provider: ProviderId)

  datatype State = State(rows: Rows, calls: map<CallId, Call>, issued: set<ProviderId>, installed: set<ProviderId>,
                         cleaned: set<ProviderId>, archived: set<ProviderId>, log: seq<Event>)

  /** The steps of the protocol, and those of its surroundings: status changes and deletion of sessions. */
  datatype Action =
    | Load(c: CallId, id: RowId)
    | StartRefresh(c: CallId, revision: string)
    | StartRecover(c: CallId, revision: string)
    | FindTarget(c: CallId)
    | CreateUpstream(c: CallId, provider: Option<ProviderId>)
    | Install(c: CallId, databaseFails: bool)
    | StartReset(c: CallId, key: Key, revision: string)
    | SwapRead(c: CallId)
    | SwapCommit(c: CallId, id: RowId, provider: Option<ProviderId>, databaseFails: bool)
    | Provision(c: CallId, key: Key, revision: string, id: RowId, provider: Option<ProviderId>, databaseFails: bool)
    | CleanUp(c: CallId)
    | Archive(c: CallId)
    | SetStatus(id: RowId, status: Status)
    | DeleteSession(id: RowId)

  ghost function RowOfKey(rows: Rows, key: Key): Option<Row> {
    if HasKey(rows, key) then
      var id :| id in rows && rows[id].key == key;
      Some(rows[id])
    else None
  }

  ghost predicate Locked(s: State, key: Key) {
    exists c :: c in s.calls && s.calls[c].Swapping? && s.calls[c].key == key
  }

  ghost predicate FreshProvider(s: State, p: Option<ProviderId>) {
    p.Some? ==> p.value !in s.issued
  }

  ghost predicate Enabled(s: State, a: Action) {
    match a
    case Load(c, id) => c !in s.calls && id in s.rows
    case StartRefresh(c, _) => c in s.calls && s.calls[c].Loaded?
    case StartRecover(c, _) => c in s.calls && s.calls[c].Loaded?
    case FindTarget(c) => c in s.calls && s.calls[c].Checking?
    case CreateUpstream(c, p) => c in s.calls && s.calls[c].Creating? && FreshProvider(s, p)
    case Install(c, _) => c in s.calls && s.calls[c].Installing?
    case StartReset(c, _, _) => c !in s.calls
    case SwapRead(c) => c in s.calls && s.calls[c].Resetting? && !Locked(s, s.calls[c].key)
    case SwapCommit(c, id, p, _) => c in s.calls && s.calls[c].Swapping? && id !in s.rows && FreshProvider(s, p)
    case Provision(c, key, _, id, p, _) => c !in s.calls && !Locked(s, key) && id !in s.rows && FreshProvider(s, p)
    case CleanUp(c) => c in s.calls && s.calls[c].Discarding?
    case Archive(c) => c in s.calls && s.calls[c].Retiring?
    case SetStatus(id, _) => id in s.rows
    case DeleteSession(id) => id in s.rows
  }

  function To(s: State, c: CallId, call: Call): State {
    s.(calls := s.calls[c := call])
  }

  ghost function AfterInstall(s: State, c: CallId, databaseFails: bool): State
    requires Enabled(s, Install(c, databaseFails))
  {
    var call := s.calls[c];
    var verdict := Judge(s.rows, call.id, call.stale, call.refresh, call.revision);
    if databaseFails || !verdict.Replaceable? then To(s, c, Discarding(call.created))
    else
      var next := if call.refresh then Retiring(call.stale.provider, call.created) else Returned(Some(call.created));
      To(s, c, next).(rows := s.rows[call.id := Installed(verdict.session, call.created, call.revision)],
                      installed := s.installed + {call.created},
                      log := s.log + [Replaced(call.stale.provider, call.created, verdict.session.status, call.refresh)])
  }

  ghost function AfterSwap(s: State, c: CallId, id: RowId, provider: Option<ProviderId>, databaseFails: bool): State
    requires Enabled(s, SwapCommit(c, id, provider, databaseFails))
  {
    var call := s.calls[c];
    if provider.None? then To(s, c, Returned(None))
    else
      var p := provider.value;
      var t := s.(issued := s.issued + {p});
      if databaseFails then To(t, c, Discarding(p))
      else
        var next := if call.seen.Some? then Retiring(call.seen.value.provider, p) else Returned(Some(p));
        To(t, c, next).(rows := Without(s.rows, call.key)[id := Row(call.key, p, call.revision, Idle)],
                        installed := s.installed + {p},
                        log := s.log + [Swapped(call.seen, RowOfKey(s.rows, call.key), p)])
  }

  /** A session created upstream is not cleaned up when its row cannot be inserted. */
  ghost function AfterProvision(s: State, a: Action): State
    requires a.Provision? && Enabled(s, a)
  {
    if HasKey(s.rows, a.key) || a.provider.None? then To(s, a.c, ProvisionReturned(None))
    else
      var p := a.provider.value;
      var t := To(s, a.c, ProvisionReturned(Some(p))).(issued := s.issued + {p});
      if a.databaseFails then t
      else t.(rows := s.rows[a.id := Row(a.key, p, a.revision, Idle)], installed := s.installed + {p})
  }

  ghost function Step(s: State, a: Action): State
    requires Enabled(s, a)
  {
    match a
    case Load(c, id) => To(s, c, Loaded(id, s.rows[id]))
    case StartRefresh(c, revision) =>
      var call := s.calls[c];
      if call.stale.revision == revision || call.stale.status == Streaming then To(s, c, Returned(None))
      else To(s, c, Checking(call.id, call.stale, true, revision))
    case StartRecover(c, revision) => To(s, c, Checking(s.calls[c].id, s.calls[c].stale, false, revision))
    case FindTarget(c) =>
      var call := s.calls[c];
      if Judge(s.rows, call.id, call.stale, call.refresh, call.revision).Replaceable?
      then To(s, c, Creating(call.id, call.stale, call.refresh, call.revision))
      else To(s, c, Returned(None))
    case CreateUpstream(c, provider) =>
      var call := s.calls[c];
      if provider.None? then To(s, c, Returned(None))
      else To(s, c, Installing(call.id, call.stale, call.refresh, call.revision, provider.value))
           .(issued := s.issued + {provider.value})
    case Install(c, databaseFails) => AfterInstall(s, c, databaseFails)
    case StartReset(c, key, revision) =>
      var row := RowOfKey(s.rows, key);
      To(s, c, if row.Some? && row.value.status == Streaming then Returned(None) else Resetting(key, revision))
    case SwapRead(c) =>
      var row := RowOfKey(s.rows, s.calls[c].key);
      To(s, c, if row.Some? && row.value.status == Streaming then Returned(None)
               else Swapping(s.calls[c].key, s.calls[c].revision, row))
    case SwapCommit(c, id, provider, databaseFails) => AfterSwap(s, c, id, provider, databaseFails)
    case Provision(_, _, _, _, _, _) => AfterProvision(s, a)
    case CleanUp(c) =>
      To(s, c, Returned(Some(s.calls[c].created))).(cleaned := s.cleaned + {s.calls[c].created})
    case Archive(c) =>
      To(s, c, Returned(Some(s.calls[c].created))).(archived := s.archived + {s.calls[c].retired})
    case SetStatus(id, status) => s.(rows := s.rows[id := s.rows[id].(status := status)])
    case DeleteSession(id) => s.(rows := s.rows - {id}, log := s.log + [Removed(s.rows[id].provider)])
  }

  const START := State(map[], map[], {}, {}, {}, {}, [])

  /** The state after a series of actions, if each of them is enabled when it is taken. */
  ghost function Ran(s: State, actions: seq<Action>): Option<State> {
    if actions == [] then Some(s)
    else
      var n := |actions| - 1;
      var before := Ran(s, actions[..n]);
      if before.Some? && Enabled(before.value, actions[n]) then Some(Step(before.value, actions[n])) else None
  }

  ghost predicate Run(actions: seq<Action>, s: State) {
    Ran(START, actions) == Some(s)
  }

  // ----- what the steps do -----

  /** A session is looked up, found stale and idle, and replaced; recovering goes on in any case. */
  lemma StartGoesOnIff(s: State, c: CallId, revision: string)
    requires c in s.calls && s.calls[c].Loaded?
    ensures var call := s.calls[c];
            && Step(s, StartRefresh(c, revision))
               == s.(calls := s.calls[c := if call.stale.revision != revision && call.stale.status != Streaming
                                           then Checking(call.id, call.stale, true, revision) else Returned(None)])
            && Step(s, StartRecover(c, revision)) == s.(calls := s.calls[c := Checking(call.id, call.stale, false, revision)])
  {
  }

  /** Checking, for a refresh or a recovery: the call goes on to create a session upstream exactly when the row can be
      replaced. */
  lemma FindTargetGoesOnIff(s: State, c: CallId)
    requires Enabled(s, FindTarget(c))
    ensures var call := s.calls[c];
            Step(s, FindTarget(c))
            == s.(calls := s.calls[c := if CanReplace(s.rows, call.id, call.stale, call.refresh, call.revision)
                                        then Creating(call.id, call.stale, call.refresh, call.revision) else Returned(None)])
  {
  }

  /** Installing, for a refresh or a recovery: the row gets the new session exactly when it can still be replaced and the
      database does not fail; a refresh goes on to archive the stale session. Otherwise the new session is to be discarded. */
  lemma InstallReplacesIff(s: State, c: CallId, databaseFails: bool)
    requires Enabled(s, Install(c, databaseFails))
    ensures var call, t := s.calls[c], Step(s, Install(c, databaseFails));
            if !databaseFails && CanReplace(s.rows, call.id, call.stale, call.refresh, call.revision) then
              && t.rows == s.rows[call.id := Row(s.rows[call.id].key, call.created, call.revision, Idle)]
              && t.calls == s.calls[c := if call.refresh then Retiring(call.stale.provider, call.created)
                                         else Returned(Some(call.created))]
              && t.installed == s.installed + {call.created}
            else
              && t.rows == s.rows && t.installed == s.installed
              && t.calls == s.calls[c := Discarding(call.created)]
  {
  }

  /** The row of a key. */
  ghost predicate IsRowOf(rows: Rows, key: Key, id: RowId) {
    id in rows && rows[id].key == key && forall i :: i in rows && rows[i].key == key ==> i == id
  }

  /** A reset is refused exactly when the session streams, at its start and under the lock. */
  lemma ResetIsRefusedIff(s: State, c: CallId, key: Key, revision: string, id: RowId)
    requires IsRowOf(s.rows, key, id)
    ensures c !in s.calls ==>
              Step(s, StartReset(c, key, revision)).calls[c]
              == if s.rows[id].status == Streaming then Returned(None) else Resetting(key, revision)
    ensures Enabled(s, SwapRead(c)) && s.calls[c] == Resetting(key, revision) ==>
              Step(s, SwapRead(c)).calls[c]
              == if s.rows[id].status == Streaming then Returned(None) else Swapping(key, revision, Some(s.rows[id]))
  {
    assert HasKey(s.rows, key);
  }

  lemma ResetWithoutSession(s: State, c: CallId, key: Key, revision: string)
    requires forall id :: id in s.rows ==> s.rows[id].key != key
    ensures c !in s.calls ==> Step(s, StartReset(c, key, revision)).calls[c] == Resetting(key, revision)
    ensures Enabled(s, SwapRead(c)) && s.calls[c] == Resetting(key, revision) ==>
              Step(s, SwapRead(c)).calls[c] == Swapping(key, revision, None)
  {
  }

  /** The commit of a reset puts a fresh session in the place of what its key has by then, and leaves all other rows; or it
      leaves all rows, and a session that it has created is to be discarded. */
  lemma CommitReplaces(s: State, c: CallId, id: RowId, provider: Option<ProviderId>, databaseFails: bool, i: RowId)
    requires Enabled(s, SwapCommit(c, id, provider, databaseFails))
    ensures var call, t := s.calls[c], Step(s, SwapCommit(c, id, provider, databaseFails));
            if provider.Some? && !databaseFails then
              && (i == id ==> i in t.rows && t.rows[i] == Row(call.key, provider.value, call.revision, Idle))
              && (i != id ==> (i in t.rows <==> i in s.rows && s.rows[i].key != call.key))
              && (i != id && i in t.rows ==> t.rows[i] == s.rows[i])
              && t.calls[c] == if call.seen.Some? then Retiring(call.seen.value.provider, provider.value)
                               else Returned(provider)
            else
              && t.rows == s.rows
              && t.calls[c] == if provider.Some? then Discarding(provider.value) else Returned(None)
  {
  }

  /** Provisioning inserts a fresh row exactly when the key has none, a session is created upstream and the database does not
      fail. */
  lemma ProvisionInserts(s: State, a: Action)
    requires a.Provision? && Enabled(s, a)
    ensures Step(s, a).rows
            == if (forall i :: i in s.rows ==> s.rows[i].key != a.key) && a.provider.Some? && !a.databaseFails
               then s.rows[a.id := Row(a.key, a.provider.value, a.revision, Idle)] else s.rows
  {
  }

  // ----- invariants -----

  ghost predicate OneRowPerKey(s: State) {
    forall i, j :: i in s.rows && j in s.rows && s.rows[i].key == s.rows[j].key ==> i == j
  }

  ghost predicate OneRowPerProvider(s: State) {
    && (forall i, j :: i in s.rows && j in s.rows && s.rows[i].provider == s.rows[j].provider ==> i == j)
    && (forall i :: i in s.rows ==> s.rows[i].provider in s.installed)
    && s.installed <= s.issued
  }

  /** Not the current provider session of any row, and never again, because only new ones are installed. */
  ghost predicate Gone(s: State, p: ProviderId) {
    p in s.installed && forall i :: i in s.rows ==> s.rows[i].provider != p
  }

  /** Created upstream, and neither installed nor cleaned up yet. */
  ghost predicate Pending(s: State, p: ProviderId) {
    p in s.issued && p !in s.installed && p !in s.cleaned
  }

  ghost predicate CallOk(s: State, call: Call) {
    match call
    case Loaded(_, stale) => stale.provider in s.installed
    case Checking(_, stale, _, _) => stale.provider in s.installed
    case Creating(_, stale, _, _) => stale.provider in s.installed
    case Installing(_, stale, _, _, p) => stale.provider in s.installed && Pending(s, p)
    case Resetting(_, _) => true
    case Swapping(key, _, seen) =>
      seen.Some? ==>
        && seen.value.status != Streaming
        && seen.value.provider in s.installed
        && forall i :: i in s.rows && s.rows[i].provider == seen.value.provider ==> s.rows[i].key == key
    case Discarding(p) => Pending(s, p)
    case Retiring(retired, p) => Gone(s, retired) && p in s.installed && p !in s.cleaned
    case Returned(made) => made.Some? ==> (made.value in s.installed <==> made.value !in s.cleaned)
    case ProvisionReturned(made) => made.Some? ==> made.value in s.issued && made.value !in s.cleaned
  }

  function Unfinished(call: Call): Option<ProviderId> {
    match call
    case Installing(_, _, _, _, p) => Some(p)
    case Discarding(p) => Some(p)
    case ProvisionReturned(p) => p
    case _ => None
  }

  /** No two calls are responsible for the same upstream session. */
  ghost predicate CallsApart(s: State) {
    forall c, d :: c in s.calls && d in s.calls && c != d && Unfinished(s.calls[c]).Some? ==>
      Unfinished(s.calls[c]) != Unfinished(s.calls[d])
  }

  ghost predicate LogOk(s: State) {
    && (forall i :: 0 <= i < |s.log| && s.log[i].Replaced? ==> Gone(s, s.log[i].stale) && s.log[i].was != Streaming)
    && (forall i, j :: 0 <= i < j < |s.log| && s.log[i].Replaced? && s.log[j].Replaced? ==>
          s.log[i].stale != s.log[j].stale)
    && (forall i :: 0 <= i < |s.log| && s.log[i].Swapped? && s.log[i].seen.Some? ==>
          s.log[i].seen.value.status != Streaming)
  }

  /** The upstream session a call created, if it did. */
  function CreatedBy(call: Call): Option<ProviderId> {
    match call
    case Installing(_, _, _, _, p) => Some(p)
    case Discarding(p) => Some(p)
    case Retiring(_, p) => Some(p)
    case Returned(made) => made
    case ProvisionReturned(made) => made
    case _ => None
  }

  /** Every upstream session ever created belongs to the call that created it. */
  ghost predicate Accounted(s: State) {
    forall p :: p in s.issued ==> exists c :: c in s.calls && CreatedBy(s.calls[c]) == Some(p)
  }

  ghost predicate Invariant(s: State) {
    && OneRowPerKey(s)
    && OneRowPerProvider(s)
    && s.installed !! s.cleaned
    && s.cleaned <= s.issued
    && (forall p :: p in s.archived ==> Gone(s, p))
    && (forall c :: c in s.calls ==> CallOk(s, s.calls[c]))
    && CallsApart(s)
    && LogOk(s)
  }

  // ----- every step keeps the invariant -----

  /** A step that only moves one call along. */
  lemma MovesCall(s: State, c: CallId, call: Call)
    requires Invariant(s) && CallOk(s, call)
    requires Unfinished(call).Some? ==> c in s.calls && Unfinished(call) == Unfinished(s.calls[c])
    ensures Invariant(To(s, c, call))
  {
    var t := To(s, c, call);
    forall d | d in t.calls ensures CallOk(t, t.calls[d]) {
      assert d != c ==> CallOk(s, s.calls[d]);
    }
  }

  /** A step that issues a new provider session to a call. */
  lemma Issues(s: State, c: CallId, call: Call, p: ProviderId)
    requires Invariant(s) && p !in s.issued && Unfinished(call) == Some(p)
    requires CallOk(s.(issued := s.issued + {p}), call)
    ensures Invariant(To(s, c, call).(issued := s.issued + {p}))
  {
    var t := To(s, c, call).(issued := s.issued + {p});
    forall d | d in t.calls ensures CallOk(t, t.calls[d]) {
      assert d != c ==> CallOk(s, s.calls[d]);
    }
    forall d | d in t.calls && d != c ensures Unfinished(t.calls[d]) != Some(p) {
      assert CallOk(s, s.calls[d]);
    }
  }

  /** t has the rows of s except that new provider session p, if any, became current in row id. */
  ghost predicate OnlyNewProvider(s: State, t: State, id: RowId, p: ProviderId) {
    && s.issued <= t.issued && t.installed == s.installed + {p} && p in t.issued
    && p !in s.installed && p !in s.cleaned && t.cleaned == s.cleaned && t.archived == s.archived
    && id in t.rows && t.rows[id].provider == p
    && (forall i :: i in t.rows && i != id ==> i in s.rows && t.rows[i] == s.rows[i])
  }

  lemma GoneStaysGone(s: State, t: State, id: RowId, p: ProviderId, q: ProviderId)
    requires OnlyNewProvider(s, t, id, p) && Gone(s, q)
    ensures Gone(t, q)
  {
  }

  lemma CallStaysOk(s: State, t: State, id: RowId, p: ProviderId, call: Call)
    requires Invariant(s) && OnlyNewProvider(s, t, id, p) && CallOk(s, call) && Unfinished(call) != Some(p)
    ensures CallOk(t, call)
  {
  }

  lemma LogStaysOk(s: State, t: State, id: RowId, p: ProviderId)
    requires Invariant(s) && OnlyNewProvider(s, t, id, p) && t.log == s.log
    ensures LogOk(t)
  {
  }

  /** A step that makes new provider session p current in row id, and moves the call that created it along. */
  lemma NewProviderKeeps(s: State, t: State, c: CallId, id: RowId, p: ProviderId)
    requires Invariant(s) && OnlyNewProvider(s, t, id, p) && t.issued <= s.issued + {p}
    requires c in t.calls && CallOk(t, t.calls[c]) && (Unfinished(t.calls[c]).Some? ==> Unfinished(t.calls[c]) == Some(p))
    requires forall d :: d in t.calls && d != c
               ==> d in s.calls && t.calls[d] == s.calls[d] && Unfinished(s.calls[d]) != Some(p)
    requires OneRowPerKey(t) && LogOk(t)
    ensures Invariant(t)
  {
    forall q | q in t.archived ensures Gone(t, q) {
      GoneStaysGone(s, t, id, p, q);
    }
    forall d | d in t.calls ensures CallOk(t, t.calls[d]) {
      if d != c {
        CallStaysOk(s, t, id, p, s.calls[d]);
      }
    }
  }

  lemma ReplacedLogOk(s: State, t: State, id: RowId, p: ProviderId, stale: ProviderId, was: Status, refresh: bool)
    requires Invariant(s) && OnlyNewProvider(s, t, id, p) && t.log == s.log + [Replaced(stale, p, was, refresh)]
    requires id in s.rows && s.rows[id].provider == stale && was != Streaming && Gone(t, stale)
    ensures LogOk(t)
  {
    forall i | 0 <= i < |s.log| && s.log[i].Replaced? ensures Gone(t, s.log[i].stale) && s.log[i].stale != stale {
      assert Gone(s, s.log[i].stale);
      GoneStaysGone(s, t, id, p, s.log[i].stale);
    }
  }

  lemma InstallKeeps(s: State, c: CallId, databaseFails: bool)
    requires Invariant(s) && Enabled(s, Install(c, databaseFails))
    ensures Invariant(AfterInstall(s, c, databaseFails))
  {
    var call := s.calls[c];
    var p := call.created;
    assert CallOk(s, call);
    var verdict := Judge(s.rows, call.id, call.stale, call.refresh, call.revision);
    if databaseFails || !verdict.Replaceable? {
      MovesCall(s, c, Discarding(p));
    } else {
      var t := AfterInstall(s, c, databaseFails);
      assert OnlyNewProvider(s, t, call.id, p);
      assert s.rows[call.id].provider == call.stale.provider;
      ReplacedLogOk(s, t, call.id, p, call.stale.provider, verdict.session.status, call.refresh);
      NewProviderKeeps(s, t, c, call.id, p);
    }
  }

  lemma SwappedLogOk(s: State, t: State, id: RowId, p: ProviderId, seen: Option<Row>, deleted: Option<Row>)
    requires Invariant(s) && OnlyNewProvider(s, t, id, p) && t.log == s.log + [Swapped(seen, deleted, p)]
    requires seen.Some? ==> seen.value.status != Streaming
    ensures LogOk(t)
  {
    LogStaysOk(s, t.(log := s.log), id, p);
    assert LogOk(t.(log := s.log));
  }

  lemma SwapKeeps(s: State, c: CallId, id: RowId, provider: Option<ProviderId>, databaseFails: bool)
    requires Invariant(s) && Enabled(s, SwapCommit(c, id, provider, databaseFails))
    ensures Invariant(AfterSwap(s, c, id, provider, databaseFails))
  {
    var call := s.calls[c];
    assert CallOk(s, call);
    if provider.None? {
      MovesCall(s, c, Returned(None));
    } else if databaseFails {
      Issues(s, c, Discarding(provider.value), provider.value);
    } else {
      SwapSucceeds(s, c, id, provider.value);
    }
  }

  lemma SwapLeavesOneRow(s: State, c: CallId, id: RowId, p: ProviderId)
    requires Invariant(s) && Enabled(s, SwapCommit(c, id, Some(p), false))
    ensures OneRowPerKey(AfterSwap(s, c, id, Some(p), false))
  {
  }

  lemma SwappedCallOk(s: State, c: CallId, id: RowId, p: ProviderId)
    requires Invariant(s) && Enabled(s, SwapCommit(c, id, Some(p), false))
    ensures var t := AfterSwap(s, c, id, Some(p), false);
            OnlyNewProvider(s, t, id, p) && CallOk(t, t.calls[c]) && Unfinished(t.calls[c]).None?
    ensures s.calls[c].seen.Some? ==> s.calls[c].seen.value.status != Streaming
  {
    assert CallOk(s, s.calls[c]);
  }

  lemma SwapSucceeds(s: State, c: CallId, id: RowId, p: ProviderId)
    requires Invariant(s) && Enabled(s, SwapCommit(c, id, Some(p), false))
    ensures Invariant(AfterSwap(s, c, id, Some(p), false))
  {
    var t := AfterSwap(s, c, id, Some(p), false);
    SwapLeavesOneRow(s, c, id, p);
    SwappedCallOk(s, c, id, p);
    assert forall d :: d in s.calls ==> CallOk(s, s.calls[d]);
    SwappedLogOk(s, t, id, p, s.calls[c].seen, RowOfKey(s.rows, s.calls[c].key));
    NewProviderKeeps(s, t, c, id, p);
  }

  lemma ProvisionKeeps(s: State, a: Action)
    requires a.Provision? && Invariant(s) && Enabled(s, a)
    ensures Invariant(AfterProvision(s, a))
  {
    if HasKey(s.rows, a.key) || a.provider.None? {
      MovesCall(s, a.c, ProvisionReturned(None));
    } else {
      var p := a.provider.value;
      if a.databaseFails {
        Issues(s, a.c, ProvisionReturned(Some(p)), p);
      } else {
        var t := AfterProvision(s, a);
        assert OnlyNewProvider(s, t, a.id, p);
        assert forall d :: d in s.calls ==> CallOk(s, s.calls[d]);
        LogStaysOk(s, t, a.id, p);
        NewProviderKeeps(s, t, a.c, a.id, p);
      }
    }
  }

  lemma CleanUpKeeps(s: State, c: CallId)
    requires Invariant(s) && Enabled(s, CleanUp(c))
    ensures Invariant(Step(s, CleanUp(c)))
  {
    var t := Step(s, CleanUp(c));
    var p := s.calls[c].created;
    assert CallOk(s, s.calls[c]);
    forall d | d in t.calls ensures CallOk(t, t.calls[d]) {
      if d != c {
        assert CallOk(s, s.calls[d]) && Unfinished(s.calls[c]) == Some(p);
        assert Unfinished(s.calls[d]) != Some(p);
      }
    }
    assert forall q :: Gone(s, q) ==> Gone(t, q);
  }

  lemma ArchiveKeeps(s: State, c: CallId)
    requires Invariant(s) && Enabled(s, Archive(c))
    ensures Invariant(Step(s, Archive(c)))
  {
    var t := Step(s, Archive(c));
    assert CallOk(s, s.calls[c]);
    forall d | d in t.calls ensures CallOk(t, t.calls[d]) {
      assert d != c ==> CallOk(s, s.calls[d]);
    }
    assert forall q :: Gone(s, q) ==> Gone(t, q);
  }

  lemma FewerRowsKeep(s: State, rows: Rows)
    requires Invariant(s)
    requires forall i :: i in rows ==> i in s.rows && rows[i].provider == s.rows[i].provider && rows[i].key == s.rows[i].key
    ensures Invariant(s.(rows := rows))
  {
    var t := s.(rows := rows);
    assert forall q :: Gone(s, q) ==> Gone(t, q);
    forall d | d in t.calls ensures CallOk(t, t.calls[d]) {
      assert CallOk(s, s.calls[d]);
    }
  }

  lemma RemovalIsLogged(s: State, p: ProviderId)
    requires Invariant(s)
    ensures Invariant(s.(log := s.log + [Removed(p)]))
  {
    var t := s.(log := s.log + [Removed(p)]);
    assert forall q :: Gone(s, q) ==> Gone(t, q);
    forall d | d in t.calls ensures CallOk(t, t.calls[d]) {
      assert CallOk(s, s.calls[d]);
    }
  }

  /** The surroundings change statuses and delete rows; they never change a row's provider session. */
  lemma SurroundingsKeep(s: State, a: Action)
    requires (a.SetStatus? || a.DeleteSession?) && Invariant(s) && Enabled(s, a)
    ensures Invariant(Step(s, a))
  {
    var t := Step(s, a);
    FewerRowsKeep(s, t.rows);
    if a.DeleteSession? {
      RemovalIsLogged(s.(rows := t.rows), s.rows[a.id].provider);
    }
  }

  lemma CallStepKeeps(s: State, a: Action)
    requires a.Load? || a.StartRefresh? || a.StartRecover? || a.FindTarget? || a.StartReset? || a.SwapRead?
    requires Invariant(s) && Enabled(s, a)
    ensures Invariant(Step(s, a))
  {
    assert forall c :: c in s.calls ==> CallOk(s, s.calls[c]);
    MovesCall(s, a.c, Step(s, a).calls[a.c]);
  }

  lemma CreateKeeps(s: State, c: CallId, provider: Option<ProviderId>)
    requires Invariant(s) && Enabled(s, CreateUpstream(c, provider))
    ensures Invariant(Step(s, CreateUpstream(c, provider)))
  {
    assert CallOk(s, s.calls[c]);
    if provider.None? {
      MovesCall(s, c, Returned(None));
    } else {
      Issues(s, c, Step(s, CreateUpstream(c, provider)).calls[c], provider.value);
    }
  }

  lemma StepKeepsInvariant(s: State, a: Action)
    requires Invariant(s) && Enabled(s, a)
    ensures Invariant(Step(s, a))
  {
    match a
    case CreateUpstream(c, provider) => CreateKeeps(s, c, provider);
    case Install(c, databaseFails) => InstallKeeps(s, c, databaseFails);
    case SwapCommit(c, id, provider, databaseFails) => SwapKeeps(s, c, id, provider, databaseFails);
    case Provision(_, _, _, _, _, _) => ProvisionKeeps(s, a);
    case CleanUp(c) => CleanUpKeeps(s, c);
    case Archive(c) => ArchiveKeeps(s, c);
    case SetStatus(_, _) => SurroundingsKeep(s, a);
    case DeleteSession(_) => SurroundingsKeep(s, a);
    case _ => CallStepKeeps(s, a);
  }

  lemma {:induction false} EveryRunKeepsInvariant(actions: seq<Action>, s: State)
    requires Run(actions, s)
    ensures Invariant(s)
  {
    if actions != [] {
      var n := |actions| - 1;
      var before := Ran(START, actions[..n]).value;
      EveryRunKeepsInvariant(actions[..n], before);
      StepKeepsInvariant(before, actions[n]);
    }
  }

  lemma StepKeepsAccounted(s: State, a: Action)
    requires Accounted(s) && Enabled(s, a)
    ensures Accounted(Step(s, a))
  {
    var t := Step(s, a);
    forall p | p in t.issued ensures exists c :: c in t.calls && CreatedBy(t.calls[c]) == Some(p) {
      if p in s.issued {
        var c :| c in s.calls && CreatedBy(s.calls[c]) == Some(p);
        assert c in t.calls && CreatedBy(t.calls[c]) == Some(p);
      } else {
        assert CreatedBy(t.calls[a.c]) == Some(p);
      }
    }
  }

  lemma {:induction false} EveryRunAccounts(actions: seq<Action>, s: State)
    requires Run(actions, s)
    ensures Accounted(s)
  {
    if actions != [] {
      var n := |actions| - 1;
      var before := Ran(START, actions[..n]).value;
      EveryRunAccounts(actions[..n], before);
      StepKeepsAccounted(before, actions[n]);
    }
  }

  // ----- what holds over every interleaving -----

  /** At most one session row exists per organization, user and canvas, and no two rows share a provider
      session. */
  lemma OneSessionPerCanvas(actions: seq<Action>, s: State, i: RowId, j: RowId)
    requires Run(actions, s) && i in s.rows && j in s.rows && i != j
    ensures s.rows[i].key != s.rows[j].key && s.rows[i].provider != s.rows[j].provider
  {
    EveryRunKeepsInvariant(actions, s);
  }

  /** Of all callers that saw the same stale provider session at most one installs a replacement, and none
      installs one into a streaming session. */
  lemma OneReplacementPerStaleSession(actions: seq<Action>, s: State, i: nat, j: nat)
    requires Run(actions, s) && i < |s.log| && j < |s.log| && s.log[i].Replaced? && s.log[j].Replaced?
    requires s.log[i].stale == s.log[j].stale
    ensures i == j && s.log[i].was != Streaming
  {
    EveryRunKeepsInvariant(actions, s);
  }

  /** An archived provider session is not the current one of any row. */
  lemma ArchivedIsNotCurrent(actions: seq<Action>, s: State, i: RowId)
    requires Run(actions, s) && i in s.rows
    ensures s.rows[i].provider !in s.archived && s.rows[i].provider !in s.cleaned
  {
    EveryRunKeepsInvariant(actions, s);
    assert s.rows[i].provider in s.archived ==> Gone(s, s.rows[i].provider);
  }

  /** When a call that refreshes, recovers or resets returns with a session it created upstream, that session is either
      installed or cleaned up, and not both, whatever other calls are doing. */
  lemma EachCreatedSessionIsInstalledOrCleanedUp(actions: seq<Action>, s: State, c: CallId, p: ProviderId)
    requires Run(actions, s) && c in s.calls && s.calls[c] == Returned(Some(p))
    ensures p in s.issued && (p in s.installed <==> p !in s.cleaned)
  {
    EveryRunKeepsInvariant(actions, s);
    assert CallOk(s, s.calls[c]);
  }

  // ----- provisioning -----

  /** A call that provisions creates session p upstream, and inserting its row fails. */
  ghost predicate InsertFails(s: State, a: Action, p: ProviderId) {
    a.Provision? && a.provider == Some(p) && a.databaseFails && !HasKey(s.rows, a.key)
  }

  /** Some action of the run was such a failed insert. */
  ghost predicate SomeInsertFailed(actions: seq<Action>, p: ProviderId) {
    actions != []
    && var n := |actions| - 1;
       || SomeInsertFailed(actions[..n], p)
       || (Ran(START, actions[..n]).Some? && InsertFails(Ran(START, actions[..n]).value, actions[n], p))
  }

  /** A provisioned session is never cleaned up, and it is installed exactly when its row could be inserted. */
  lemma ProvisionInstallsIff(actions: seq<Action>, s: State, a: Action)
    requires Run(actions, s) && Enabled(s, a) && a.Provision? && a.provider.Some? && !HasKey(s.rows, a.key)
    ensures var t := Step(s, a);
      && t.calls[a.c] == ProvisionReturned(a.provider) && a.provider.value in t.issued
      && a.provider.value !in t.cleaned
      && (a.provider.value in t.installed <==> !a.databaseFails)
  {
    EveryRunKeepsInvariant(actions, s);
  }

  /** Sessions that a provisioning call returned with are not installed exactly when their insert failed, and no others
      have a failed insert. */
  ghost predicate LeaksTracked(actions: seq<Action>, s: State) {
    && (forall c, p :: c in s.calls && s.calls[c] == ProvisionReturned(Some(p)) ==>
          p !in s.cleaned && (p in s.installed <==> !SomeInsertFailed(actions, p)))
    && (forall p :: SomeInsertFailed(actions, p) ==>
          exists c :: c in s.calls && s.calls[c] == ProvisionReturned(Some(p)))
  }

  lemma OneMoreAction(actions: seq<Action>, s: State, a: Action, p: ProviderId)
    requires Run(actions, s)
    ensures SomeInsertFailed(actions + [a], p) <==> SomeInsertFailed(actions, p) || InsertFails(s, a, p)
  {
    assert (actions + [a])[..|actions|] == actions;
  }

  lemma CallIsKept(s: State, a: Action, c: CallId)
    requires Enabled(s, a) && c in s.calls && s.calls[c].ProvisionReturned?
    ensures c in Step(s, a).calls && Step(s, a).calls[c] == s.calls[c]
  {
  }

  /** A step touches the session of a provisioning call that has returned neither by installing nor by cleaning up. */
  lemma ProvisionedIsKept(s: State, a: Action, c: CallId, p: ProviderId)
    requires Invariant(s) && Enabled(s, a) && c in s.calls && s.calls[c] == ProvisionReturned(Some(p))
    ensures p in Step(s, a).installed <==> p in s.installed
    ensures p in Step(s, a).cleaned <==> p in s.cleaned
    ensures !InsertFails(s, a, p)
  {
    assert CallOk(s, s.calls[c]);
    if a.Install? || a.CleanUp? {
      assert Unfinished(s.calls[a.c]) != Unfinished(s.calls[c]);
    }
  }

  lemma ProvisionReturnIsNew(s: State, a: Action, c: CallId, p: ProviderId)
    requires Enabled(s, a)
    requires c in Step(s, a).calls && Step(s, a).calls[c] == ProvisionReturned(Some(p))
    requires !(c in s.calls && s.calls[c] == ProvisionReturned(Some(p)))
    ensures a.Provision? && a.c == c
  {
  }

  lemma NewProvisionReturn(s: State, a: Action, c: CallId, p: ProviderId)
    requires Invariant(s) && Enabled(s, a)
    requires c in Step(s, a).calls && Step(s, a).calls[c] == ProvisionReturned(Some(p))
    requires !(c in s.calls && s.calls[c] == ProvisionReturned(Some(p)))
    ensures a.Provision? && a.c == c && a.provider == Some(p) && !HasKey(s.rows, a.key)
    ensures p !in s.issued && p !in Step(s, a).cleaned
    ensures p in Step(s, a).installed <==> !InsertFails(s, a, p)
  {
    ProvisionReturnIsNew(s, a, c, p);
    assert Step(s, a) == AfterProvision(s, a);
  }

  lemma FailedInsertReturns(s: State, a: Action, p: ProviderId)
    requires Enabled(s, a) && InsertFails(s, a, p)
    ensures a.c in Step(s, a).calls && Step(s, a).calls[a.c] == ProvisionReturned(Some(p))
  {
  }

  lemma StepTracksLeaks(actions: seq<Action>, s: State, a: Action)
    requires Run(actions, s) && Invariant(s) && Enabled(s, a) && LeaksTracked(actions, s)
    ensures LeaksTracked(actions + [a], Step(s, a))
  {
    var t := Step(s, a);
    forall c, p | c in t.calls && t.calls[c] == ProvisionReturned(Some(p))
      ensures p !in t.cleaned && (p in t.installed <==> !SomeInsertFailed(actions + [a], p))
    {
      OneMoreAction(actions, s, a, p);
      if c in s.calls && s.calls[c] == ProvisionReturned(Some(p)) {
        ProvisionedIsKept(s, a, c, p);
      } else {
        NewProvisionReturn(s, a, c, p);
        NotFailedBefore(actions, s, p);
      }
    }
    forall p | SomeInsertFailed(actions + [a], p) ensures exists c :: c in t.calls && t.calls[c] == ProvisionReturned(Some(p)) {
      OneMoreAction(actions, s, a, p);
      if SomeInsertFailed(actions, p) {
        var c :| c in s.calls && s.calls[c] == ProvisionReturned(Some(p));
        CallIsKept(s, a, c);
      } else {
        FailedInsertReturns(s, a, p);
      }
    }
  }

  lemma NotFailedBefore(actions: seq<Action>, s: State, p: ProviderId)
    requires LeaksTracked(actions, s) && Invariant(s) && p !in s.issued
    ensures !SomeInsertFailed(actions, p)
  {
    assert forall c :: c in s.calls && s.calls[c] == ProvisionReturned(Some(p)) ==> CallOk(s, s.calls[c]);
  }

  lemma {:induction false} EveryRunTracksLeaks(actions: seq<Action>, s: State)
    requires Run(actions, s)
    ensures LeaksTracked(actions, s)
  {
    if actions != [] {
      var n := |actions| - 1;
      var before := Ran(START, actions[..n]).value;
      EveryRunKeepsInvariant(actions[..n], before);
      EveryRunTracksLeaks(actions[..n], before);
      StepTracksLeaks(actions[..n], before, actions[n]);
      assert actions[..n] + [actions[n]] == actions;
    }
  }

  /** The call has returned with upstream session p. */
  predicate ReturnedWith(call: Call, p: ProviderId) {
    call == Returned(Some(p)) || call == ProvisionReturned(Some(p))
  }

  /** Over every interleaving, when any call returns with a session it created upstream, the session is installed or
      cleaned up exactly when it was not a provisioning call whose insert failed. It is never both. */
  lemma CreatedSessionIsKeptTrackOfIff(actions: seq<Action>, s: State, c: CallId, p: ProviderId)
    requires Run(actions, s) && c in s.calls && ReturnedWith(s.calls[c], p)
    ensures p in s.installed || p in s.cleaned <==> !SomeInsertFailed(actions, p)
    ensures !(p in s.installed && p in s.cleaned)
  {
    EveryRunKeepsInvariant(actions, s);
    EveryRunTracksLeaks(actions, s);
    if s.calls[c] == Returned(Some(p)) {
      assert CallOk(s, s.calls[c]);
      OnlyOneCreator(actions, s, c, p);
    }
  }

  /** Every session in the hands of a call was created by that call alone. */
  ghost predicate CreatorsApart(s: State) {
    && (forall c :: c in s.calls && CreatedBy(s.calls[c]).Some? ==> CreatedBy(s.calls[c]).value in s.issued)
    && (forall c, d :: c in s.calls && d in s.calls && c != d && CreatedBy(s.calls[c]).Some? ==>
          CreatedBy(s.calls[c]) != CreatedBy(s.calls[d]))
  }

  /** What a call has created it had created before, or it is what this step has just issued to it. */
  lemma CreatedBeforeOrNow(s: State, a: Action, c: CallId)
    requires Enabled(s, a) && c in Step(s, a).calls && CreatedBy(Step(s, a).calls[c]).Some?
    ensures s.issued <= Step(s, a).issued
    ensures || (c in s.calls && CreatedBy(s.calls[c]) == CreatedBy(Step(s, a).calls[c]))
            || (!a.SetStatus? && !a.DeleteSession? && a.c == c
                && CreatedBy(Step(s, a).calls[c]).value in Step(s, a).issued - s.issued)
  {
  }

  lemma StepKeepsCreatorsApart(s: State, a: Action)
    requires CreatorsApart(s) && Enabled(s, a)
    ensures CreatorsApart(Step(s, a))
  {
    var t := Step(s, a);
    forall c | c in t.calls && CreatedBy(t.calls[c]).Some?
      ensures CreatedBy(t.calls[c]).value in t.issued
      ensures || (c in s.calls && CreatedBy(s.calls[c]) == CreatedBy(t.calls[c]))
              || (!a.SetStatus? && !a.DeleteSession? && a.c == c && CreatedBy(t.calls[c]).value !in s.issued)
    {
      CreatedBeforeOrNow(s, a, c);
    }
  }

  lemma {:induction false} EveryRunKeepsCreatorsApart(actions: seq<Action>, s: State)
    requires Run(actions, s)
    ensures CreatorsApart(s)
  {
    if actions != [] {
      var n := |actions| - 1;
      var before := Ran(START, actions[..n]).value;
      EveryRunKeepsCreatorsApart(actions[..n], before);
      StepKeepsCreatorsApart(before, actions[n]);
    }
  }

  lemma OnlyOneCreator(actions: seq<Action>, s: State, c: CallId, p: ProviderId)
    requires Run(actions, s) && LeaksTracked(actions, s) && c in s.calls && s.calls[c] == Returned(Some(p))
    ensures !SomeInsertFailed(actions, p)
  {
    EveryRunKeepsCreatorsApart(actions, s);
    assert CreatedBy(s.calls[c]) == Some(p);
    assert forall d :: d in s.calls && d != c ==> CreatedBy(s.calls[d]) != Some(p);
  }

  // ----- resets and streaming sessions -----

  /** The status that the last SetStatus on a row gives it. */
  function LastSet(actions: seq<Action>, id: RowId): Option<Status> {
    if actions == [] then None
    else
      var last := actions[|actions| - 1];
      if last.SetStatus? && last.id == id then Some(last.status) else LastSet(actions[..|actions| - 1], id)
  }

  /** No two resets are between reading and committing for the same key: each holds the key's advisory lock. */
  ghost predicate LocksApart(s: State) {
    forall c, d :: c in s.calls && d in s.calls && c != d && s.calls[c].Swapping? && s.calls[d].Swapping? ==>
      s.calls[c].key != s.calls[d].key
  }

  lemma StepKeepsLocksApart(s: State, a: Action)
    requires LocksApart(s) && Enabled(s, a)
    ensures LocksApart(Step(s, a))
  {
    var t := Step(s, a);
    forall c | c in t.calls && t.calls[c].Swapping?
      ensures (c in s.calls && s.calls[c] == t.calls[c]) || (a == SwapRead(c) && !Locked(s, t.calls[c].key))
    {
    }
  }

  lemma {:induction false} EveryRunKeepsLocksApart(actions: seq<Action>, s: State)
    requires Run(actions, s)
    ensures LocksApart(s)
  {
    if actions != [] {
      var n := |actions| - 1;
      var before := Ran(START, actions[..n]).value;
      EveryRunKeepsLocksApart(actions[..n], before);
      StepKeepsLocksApart(before, actions[n]);
    }
  }

  /** The rows of a key in t are those of s that were not deleted since, and are streaming as they were last set. */
  ghost predicate RowsTracked(s: State, actions: seq<Action>, t: State, key: Key) {
    && (forall id :: id in t.rows && t.rows[id].key == key ==>
          && id in s.rows && s.rows[id].key == key && DeleteSession(id) !in actions
          && (t.rows[id].status == Streaming <==> LastSet(actions, id) == Some(Streaming)))
    && (forall id :: id in s.rows && s.rows[id].key == key && DeleteSession(id) !in actions ==>
          id in t.rows && t.rows[id].key == key)
  }

  /** Call c holds the advisory lock of a key. */
  ghost predicate Holds(s: State, c: CallId, key: Key) {
    LocksApart(s) && c in s.calls && s.calls[c].Swapping? && s.calls[c].key == key
  }

  lemma StepUnderLock(s: State, a: Action, c: CallId, key: Key)
    requires Holds(s, c, key) && Enabled(s, a) && !(a.SwapCommit? && a.c == c)
    ensures Holds(Step(s, a), c, key) && Step(s, a).calls[c] == s.calls[c]
  {
    StepKeepsLocksApart(s, a);
  }

  lemma RowsUnderLock(s: State, a: Action, c: CallId, key: Key, id: RowId)
    requires Holds(s, c, key) && Enabled(s, a) && !(a.SwapCommit? && a.c == c)
    ensures var t := Step(s, a);
      (id in t.rows && t.rows[id].key == key) <==> (id in s.rows && s.rows[id].key == key && a != DeleteSession(id))
  {
  }

  lemma StatusUnderLock(s: State, a: Action, c: CallId, key: Key, id: RowId)
    requires Holds(s, c, key) && Enabled(s, a) && !(a.SwapCommit? && a.c == c)
    requires id in s.rows && id in Step(s, a).rows && s.rows[id].key == key
    ensures Step(s, a).rows[id].status == Streaming
            <==> if a.SetStatus? && a.id == id then a.status == Streaming else s.rows[id].status == Streaming
  {
  }

  lemma TrackedStep(s: State, actions: seq<Action>, m: State, a: Action, c: CallId, key: Key)
    requires RowsTracked(s, actions, m, key) && Holds(m, c, key) && Enabled(m, a) && !(a.SwapCommit? && a.c == c)
    ensures RowsTracked(s, actions + [a], Step(m, a), key)
  {
    assert (actions + [a])[..|actions|] == actions;
    forall id ensures (id in Step(m, a).rows && Step(m, a).rows[id].key == key)
                      <==> (id in m.rows && m.rows[id].key == key && a != DeleteSession(id)) {
      RowsUnderLock(m, a, c, key, id);
    }
    forall id | id in Step(m, a).rows && Step(m, a).rows[id].key == key
      ensures Step(m, a).rows[id].status == Streaming <==> LastSet(actions + [a], id) == Some(Streaming)
    {
      StatusUnderLock(m, a, c, key, id);
    }
  }

  lemma {:induction false} TrackedUnderLock(s: State, actions: seq<Action>, t: State, c: CallId, key: Key)
    requires Ran(s, actions) == Some(t) && Holds(s, c, key) && RowsTracked(s, [], s, key)
    requires forall a :: a in actions ==> !(a.SwapCommit? && a.c == c)
    ensures Holds(t, c, key) && t.calls[c] == s.calls[c] && RowsTracked(s, actions, t, key)
  {
    if actions != [] {
      var n := |actions| - 1;
      var before := Ran(s, actions[..n]).value;
      assert actions[n] in actions && forall a :: a in actions[..n] ==> a in actions;
      TrackedUnderLock(s, actions[..n], before, c, key);
      StepUnderLock(before, actions[n], c, key);
      TrackedStep(s, actions[..n], before, actions[n], c, key);
      assert actions[..n] + [actions[n]] == actions;
    }
  }

  /** The actions leave a row of the key undeleted and streaming. */
  ghost predicate LeavesStreaming(s: State, actions: seq<Action>, key: Key) {
    exists id :: && id in s.rows && s.rows[id].key == key
                 && DeleteSession(id) !in actions && LastSet(actions, id) == Some(Streaming)
  }

  lemma RowOfKeyIs(s: State, key: Key, id: RowId)
    requires OneRowPerKey(s) && id in s.rows && s.rows[id].key == key
    ensures RowOfKey(s.rows, key) == Some(s.rows[id])
  {
  }

  lemma ReadIsTracked(r: State, c: CallId)
    requires Invariant(r) && LocksApart(r) && Enabled(r, SwapRead(c)) && Step(r, SwapRead(c)).calls[c].Swapping?
    ensures var s := Step(r, SwapRead(c));
      Holds(s, c, r.calls[c].key) && RowsTracked(s, [], s, r.calls[c].key)
  {
    StepKeepsLocksApart(r, SwapRead(c));
    forall id | id in r.rows && r.rows[id].key == r.calls[c].key ensures r.rows[id].status != Streaming {
      RowOfKeyIs(r, r.calls[c].key, id);
    }
  }

  /** A reset deletes a streaming session only if the session changed after the reset read it. */
  lemma ResetDeletesStreamingOnlyIfChanged(actions: seq<Action>, s: State, i: nat)
    requires Run(actions, s) && i < |s.log| && s.log[i].Swapped?
    requires s.log[i].deleted.Some? && s.log[i].deleted.value.status == Streaming
    ensures s.log[i].seen != s.log[i].deleted
  {
    EveryRunKeepsInvariant(actions, s);
  }

  lemma SwapCommitLogs(t: State, c: CallId, id: RowId, p: ProviderId)
    requires Enabled(t, SwapCommit(c, id, Some(p), false))
    ensures Step(t, SwapCommit(c, id, Some(p), false)).log
            == t.log + [Swapped(t.calls[c].seen, RowOfKey(t.rows, t.calls[c].key), p)]
  {
  }

  lemma TrackedBetween(before: seq<Action>, r: State, c: CallId, between: seq<Action>, t: State)
    requires Run(before, r) && Enabled(r, SwapRead(c)) && Step(r, SwapRead(c)).calls[c].Swapping?
    requires Ran(Step(r, SwapRead(c)), between) == Some(t)
    requires forall a :: a in between ==> !(a.SwapCommit? && a.c == c)
    ensures Invariant(r) && Invariant(t) && c in t.calls && t.calls[c] == Step(r, SwapRead(c)).calls[c]
    ensures RowsTracked(Step(r, SwapRead(c)), between, t, r.calls[c].key)
  {
    var s, key := Step(r, SwapRead(c)), r.calls[c].key;
    EveryRunKeepsInvariant(before, r);
    EveryRunKeepsLocksApart(before, r);
    ReadIsTracked(r, c);
    TrackedUnderLock(s, between, t, c, key);
    StepKeepsInvariant(r, SwapRead(c));
    KeepsInvariantFrom(s, between, t);
  }

  /** A reset deletes a streaming session exactly when, between its reading and its commit, the session that it read was
      set to streaming last and was not deleted by someone else. */
  lemma ResetDeletesStreamingIff(before: seq<Action>, r: State, c: CallId, between: seq<Action>, t: State, id: RowId,
                                 p: ProviderId)
    requires Run(before, r) && Enabled(r, SwapRead(c)) && Step(r, SwapRead(c)).calls[c].Swapping?
    requires Ran(Step(r, SwapRead(c)), between) == Some(t)
    requires forall a :: a in between ==> !(a.SwapCommit? && a.c == c)
    requires Enabled(t, SwapCommit(c, id, Some(p), false))
    ensures var log := Step(t, SwapCommit(c, id, Some(p), false)).log;
      && |log| > 0 && log[|log| - 1].Swapped?
      && (log[|log| - 1].deleted.Some? && log[|log| - 1].deleted.value.status == Streaming
          <==> LeavesStreaming(r, between, r.calls[c].key))
  {
    var s, key := Step(r, SwapRead(c)), r.calls[c].key;
    SwapCommitLogs(t, c, id, p);
    TrackedBetween(before, r, c, between, t);
    if LeavesStreaming(r, between, key) {
      var row :| && row in r.rows && r.rows[row].key == key
                 && DeleteSession(row) !in between && LastSet(between, row) == Some(Streaming);
      RowOfKeyIs(t, key, row);
    }
  }

  lemma {:induction false} KeepsInvariantFrom(s: State, actions: seq<Action>, t: State)
    requires Invariant(s) && Ran(s, actions) == Some(t)
    ensures Invariant(t)
  {
    if actions != [] {
      var n := |actions| - 1;
      var before := Ran(s, actions[..n]).value;
      KeepsInvariantFrom(s, actions[..n], before);
      StepKeepsInvariant(before, actions[n]);
    }
  }

  // ----- sessions that no row has any more -----

  /** The event took the upstream session out of its row. */
  predicate Drops(e: Event, p: ProviderId) {
    match e
    case Replaced(stale, _, _, _) => stale == p
    case Swapped(_, deleted, _) => deleted.Some? && deleted.value.provider == p
    case Removed(provider) => provider == p
  }

  /** The call behind the event goes on to archive the upstream session. */
  predicate Retires(e: Event, p: ProviderId) {
    match e
    case Replaced(stale, _, _, refresh) => refresh && stale == p
    case Swapped(seen, _, _) => seen.Some? && seen.value.provider == p
    case Removed(_) => false
  }

  predicate Dropped(log: seq<Event>, p: ProviderId) {
    log != [] && (Dropped(log[..|log| - 1], p) || Drops(log[|log| - 1], p))
  }

  predicate Retired(log: seq<Event>, p: ProviderId) {
    log != [] && (Retired(log[..|log| - 1], p) || Retires(log[|log| - 1], p))
  }

  lemma OneMoreEvent(log: seq<Event>, e: Event, p: ProviderId)
    ensures Dropped(log + [e], p) <==> Dropped(log, p) || Drops(e, p)
    ensures Retired(log + [e], p) <==> Retired(log, p) || Retires(e, p)
  {
    assert (log + [e])[..|log|] == log;
  }

  /** What a step adds to the log, if anything. */
  ghost function LoggedBy(s: State, a: Action): Option<Event>
    requires Enabled(s, a)
  {
    var t := Step(s, a);
    if |t.log| > |s.log| then Some(t.log[|s.log|]) else None
  }

  lemma StepLogs(s: State, a: Action)
    requires Enabled(s, a)
    ensures Step(s, a).log == if LoggedBy(s, a).Some? then s.log + [LoggedBy(s, a).value] else s.log
    ensures LoggedBy(s, a).Some? ==> a.Install? || a.SwapCommit? || a.DeleteSession?
  {
  }

  lemma InstallDrops(s: State, a: Action, p: ProviderId)
    requires a.Install? && Invariant(s) && Enabled(s, a)
    ensures Gone(Step(s, a), p) <==> Gone(s, p) || (LoggedBy(s, a).Some? && Drops(LoggedBy(s, a).value, p))
  {
    var t, call := Step(s, a), s.calls[a.c];
    assert CallOk(s, call);
    if LoggedBy(s, a).Some? {
      assert t.rows[call.id].provider == call.created && s.rows[call.id].provider == call.stale.provider;
      assert forall i :: i in t.rows && i != call.id ==> t.rows[i] == s.rows[i];
    }
  }

  /** A step with new session p in row id, which takes the old session out of one row at most. */
  lemma NewProviderDrops(s: State, t: State, id: RowId, new_: ProviderId, dropped: Option<RowId>, p: ProviderId)
    requires OneRowPerProvider(s) && new_ !in s.installed && t.installed == s.installed + {new_}
    requires id !in s.rows && id in t.rows && t.rows[id].provider == new_
    requires dropped.Some? ==> dropped.value in s.rows && dropped.value !in t.rows
    requires forall i :: i in s.rows && dropped != Some(i) ==> i in t.rows && t.rows[i] == s.rows[i]
    requires forall i :: i in t.rows && i != id ==> i in s.rows && t.rows[i] == s.rows[i]
    ensures Gone(t, p) <==> Gone(s, p) || (dropped.Some? && s.rows[dropped.value].provider == p)
  {
    if dropped.Some? && s.rows[dropped.value].provider == p {
      assert forall i :: i in t.rows && i != id ==> i != dropped.value;
    }
  }

  lemma SwapDrops(s: State, a: Action, p: ProviderId)
    requires a.SwapCommit? && Invariant(s) && Enabled(s, a)
    ensures Gone(Step(s, a), p) <==> Gone(s, p) || (LoggedBy(s, a).Some? && Drops(LoggedBy(s, a).value, p))
  {
    var t, key := Step(s, a), s.calls[a.c].key;
    if LoggedBy(s, a).Some? {
      SwapCommitLogs(s, a.c, a.id, a.provider.value);
      if i :| i in s.rows && s.rows[i].key == key {
        RowOfKeyIs(s, key, i);
        NewProviderDrops(s, t, a.id, a.provider.value, Some(i), p);
      } else {
        NewProviderDrops(s, t, a.id, a.provider.value, None, p);
      }
    }
  }

  lemma DeleteDrops(s: State, id: RowId, p: ProviderId)
    requires OneRowPerProvider(s) && id in s.rows
    ensures Gone(Step(s, DeleteSession(id)), p) <==> Gone(s, p) || s.rows[id].provider == p
  {
    assert forall i :: i in Step(s, DeleteSession(id)).rows <==> i in s.rows && i != id;
  }

  lemma ProvisionDrops(s: State, a: Action, p: ProviderId)
    requires a.Provision? && Invariant(s) && Enabled(s, a)
    ensures Gone(Step(s, a), p) <==> Gone(s, p)
  {
    var t := Step(s, a);
    if t.installed != s.installed {
      NewProviderDrops(s, t, a.id, a.provider.value, None, p);
    }
  }

  lemma SameProvidersDrop(s: State, a: Action, p: ProviderId)
    requires !a.Install? && !a.SwapCommit? && !a.DeleteSession? && !a.Provision? && Enabled(s, a)
    ensures Gone(Step(s, a), p) <==> Gone(s, p)
  {
    var t := Step(s, a);
    assert t.rows.Keys == s.rows.Keys && forall i :: i in s.rows ==> t.rows[i].provider == s.rows[i].provider;
  }

  lemma OtherStepDrops(s: State, a: Action, p: ProviderId)
    requires !a.Install? && !a.SwapCommit? && Invariant(s) && Enabled(s, a)
    ensures Gone(Step(s, a), p) <==> Gone(s, p) || (LoggedBy(s, a).Some? && Drops(LoggedBy(s, a).value, p))
  {
    StepLogs(s, a);
    if a.DeleteSession? {
      DeleteDrops(s, a.id, p);
    } else if a.Provision? {
      ProvisionDrops(s, a, p);
    } else {
      SameProvidersDrop(s, a, p);
    }
  }

  /** An upstream session is out of all rows, after having been in one, exactly when the log says so. */
  ghost predicate DropsTracked(s: State, p: ProviderId) {
    Gone(s, p) <==> Dropped(s.log, p)
  }

  lemma StepTracksDrops(s: State, a: Action, p: ProviderId)
    requires Invariant(s) && Enabled(s, a) && DropsTracked(s, p)
    ensures DropsTracked(Step(s, a), p)
  {
    StepLogs(s, a);
    if LoggedBy(s, a).Some? {
      OneMoreEvent(s.log, LoggedBy(s, a).value, p);
    }
    if a.Install? {
      InstallDrops(s, a, p);
    } else if a.SwapCommit? {
      SwapDrops(s, a, p);
    } else {
      OtherStepDrops(s, a, p);
    }
  }

  /** Archived, or a call is about to archive it. */
  ghost predicate Archiving(s: State, p: ProviderId) {
    p in s.archived || exists c :: c in s.calls && s.calls[c].Retiring? && s.calls[c].retired == p
  }

  lemma CallsThatRetire(s: State, a: Action, c: CallId)
    requires Enabled(s, a)
    ensures c in s.calls && s.calls[c].Retiring? && a != Archive(c)
            ==> c in Step(s, a).calls && Step(s, a).calls[c] == s.calls[c]
    ensures c in Step(s, a).calls && Step(s, a).calls[c].Retiring?
            ==> || (c in s.calls && s.calls[c] == Step(s, a).calls[c])
                || (LoggedBy(s, a).Some? && Retires(LoggedBy(s, a).value, Step(s, a).calls[c].retired))
  {
  }

  lemma RetiringFollows(s: State, a: Action, p: ProviderId)
    requires Enabled(s, a) && LoggedBy(s, a).Some? && Retires(LoggedBy(s, a).value, p)
    ensures !a.DeleteSession? && a.c in Step(s, a).calls
    ensures Step(s, a).calls[a.c].Retiring? && Step(s, a).calls[a.c].retired == p
  {
  }

  lemma StepTracksArchiving(s: State, a: Action, p: ProviderId)
    requires Enabled(s, a) && (Archiving(s, p) <==> Retired(s.log, p))
    ensures Archiving(Step(s, a), p) <==> Retired(Step(s, a).log, p)
  {
    var t := Step(s, a);
    StepLogs(s, a);
    if LoggedBy(s, a).Some? {
      OneMoreEvent(s.log, LoggedBy(s, a).value, p);
      if Retires(LoggedBy(s, a).value, p) {
        RetiringFollows(s, a, p);
      }
    }
    if c :| c in s.calls && s.calls[c].Retiring? && s.calls[c].retired == p {
      CallsThatRetire(s, a, c);
    }
    if c :| c in t.calls && t.calls[c].Retiring? && t.calls[c].retired == p {
      CallsThatRetire(s, a, c);
    }
    assert s.archived <= t.archived && (p in t.archived && p !in s.archived ==> a.Archive? && s.calls[a.c].retired == p);
  }

  lemma {:induction false} EveryRunTracksSessions(actions: seq<Action>, s: State, p: ProviderId)
    requires Run(actions, s)
    ensures DropsTracked(s, p)
    ensures Archiving(s, p) <==> Retired(s.log, p)
  {
    if actions != [] {
      var n := |actions| - 1;
      var before := Ran(START, actions[..n]).value;
      EveryRunKeepsInvariant(actions[..n], before);
      EveryRunTracksSessions(actions[..n], before, p);
      StepTracksDrops(before, actions[n], p);
      StepTracksArchiving(before, actions[n], p);
    }
  }

  /**
   * Over every interleaving, an upstream session that was in a row and is in none any more has not been archived, and no
   * call is going to archive it, exactly when the log drops it and no refresh or reset retires it: it was recovered from,
   * its row was deleted, or a reset deleted it that had seen another session.
   */
  lemma SessionIsLostIff(actions: seq<Action>, s: State, p: ProviderId)
    requires Run(actions, s)
    ensures Gone(s, p) && !Archiving(s, p) <==> Dropped(s.log, p) && !Retired(s.log, p)
  {
    EveryRunTracksSessions(actions, s, p);
  }

  lemma RowUnderLockIs(r: State, c: CallId, t: State, row: RowId)
    requires Invariant(r) && Enabled(r, SwapRead(c)) && Step(r, SwapRead(c)).calls[c].Swapping?
    requires row in r.rows && r.rows[row].key == r.calls[c].key
    requires Invariant(t) && c in t.calls && t.calls[c] == Step(r, SwapRead(c)).calls[c]
    requires row in t.rows && t.rows[row].key == r.calls[c].key
    ensures t.calls[c].seen == Some(r.rows[row]) && RowOfKey(t.rows, r.calls[c].key) == Some(t.rows[row])
    ensures t.rows[row].provider == r.rows[row].provider <==> !Gone(t, r.rows[row].provider)
  {
    RowOfKeyIs(r, r.calls[c].key, row);
    RowOfKeyIs(t, r.calls[c].key, row);
    assert CallOk(t, t.calls[c]);
  }

  /** A reset that deletes a session retires that very session exactly when the one that it had seen has not been replaced
      since; otherwise the session that has replaced it is lost. */
  lemma ResetRetiresWhatItDeletesIff(before: seq<Action>, r: State, c: CallId, between: seq<Action>, t: State, id: RowId,
                                     p: ProviderId)
    requires Run(before, r) && Enabled(r, SwapRead(c)) && Step(r, SwapRead(c)).calls[c].Swapping?
    requires Ran(Step(r, SwapRead(c)), between) == Some(t)
    requires forall a :: a in between ==> !(a.SwapCommit? && a.c == c)
    requires Enabled(t, SwapCommit(c, id, Some(p), false)) && HasKey(t.rows, r.calls[c].key)
    ensures t.calls[c].Swapping? && t.calls[c].seen.Some?
    ensures var e := LoggedBy(t, SwapCommit(c, id, Some(p), false));
      && e.Some? && e.value.Swapped? && e.value.deleted.Some?
      && (Retires(e.value, e.value.deleted.value.provider) <==> !Dropped(t.log, t.calls[c].seen.value.provider))
  {
    var s, key := Step(r, SwapRead(c)), r.calls[c].key;
    TrackedBetween(before, r, c, between, t);
    var row :| row in t.rows && t.rows[row].key == key;
    RowUnderLockIs(r, c, t, row);
    RunsThrough(before, r, SwapRead(c), between, t);
    EveryRunTracksSessions(before + [SwapRead(c)] + between, t, r.rows[row].provider);
    SwapRetires(t, c, id, p, r.rows[row], t.rows[row]);
  }

  lemma SwapRetires(t: State, c: CallId, id: RowId, p: ProviderId, seen: Row, deleted: Row)
    requires Enabled(t, SwapCommit(c, id, Some(p), false))
    requires t.calls[c].seen == Some(seen) && RowOfKey(t.rows, t.calls[c].key) == Some(deleted)
    ensures var e := LoggedBy(t, SwapCommit(c, id, Some(p), false));
            e == Some(Swapped(Some(seen), Some(deleted), p))
  {
    SwapCommitLogs(t, c, id, p);
  }

  lemma {:induction false} RunsThrough(before: seq<Action>, r: State, a: Action, between: seq<Action>, t: State)
    requires Run(before, r) && Enabled(r, a) && Ran(Step(r, a), between) == Some(t)
    ensures Run(before + [a] + between, t)
  {
    RunsOn(before, r, a);
    if between == [] {
      assert before + [a] + between == before + [a];
    } else {
      var n := |between| - 1;
      var m := Ran(Step(r, a), between[..n]).value;
      RunsThrough(before, r, a, between[..n], m);
      RunsOn(before + [a] + between[..n], m, between[n]);
      assert before + [a] + between == before + [a] + between[..n] + [between[n]];
    }
  }

  lemma RunsOn(actions: seq<Action>, s: State, a: Action)
    requires Run(actions, s) && Enabled(s, a)
    ensures Run(actions + [a], Step(s, a))
  {
    assert (actions + [a])[..|actions|] == actions;
  }

  lemma OnlyRow(rows: Rows, row: Row)
    requires rows == map[0 := row]
    ensures RowOfKey(rows, row.key) == Some(row)
  {
    assert 0 in rows && rows[0].key == row.key;
  }

  function Provisioned(key: Key): State {
    State(map[0 := Row(key, 0, "r", Idle)], map[0 := ProvisionReturned(Some(0))], {0}, {0}, {}, {}, [])
  }

  /** A reset has read the idle session, which then starts streaming. */
  function ReadThenStreaming(key: Key): State {
    State(map[0 := Row(key, 0, "r", Streaming)],
          map[0 := ProvisionReturned(Some(0)), 1 := Swapping(key, "r", Some(Row(key, 0, "r", Idle)))],
          {0}, {0}, {}, {}, [])
  }

  lemma ProvisionedSteps(key: Key)
    ensures Enabled(START, Provision(0, key, "r", 0, Some(0), false))
    ensures Step(START, Provision(0, key, "r", 0, Some(0), false)) == Provisioned(key)
  {
    assert !HasKey(START.rows, key);
  }

  lemma ReadSteps(key: Key)
    ensures var s := Provisioned(key);
      && Enabled(s, StartReset(1, key, "r"))
      && Enabled(Step(s, StartReset(1, key, "r")), SwapRead(1))
      && Enabled(Step(Step(s, StartReset(1, key, "r")), SwapRead(1)), SetStatus(0, Streaming))
      && Step(Step(Step(s, StartReset(1, key, "r")), SwapRead(1)), SetStatus(0, Streaming)) == ReadThenStreaming(key)
  {
    var s := Provisioned(key);
    OnlyRow(s.rows, Row(key, 0, "r", Idle));
    var t := Step(s, StartReset(1, key, "r"));
    assert t == s.(calls := s.calls[1 := Resetting(key, "r")]);
  }

  lemma CommitStep(key: Key)
    ensures var s := ReadThenStreaming(key);
      && Enabled(s, SwapCommit(1, 1, Some(1), false))
      && Step(s, SwapCommit(1, 1, Some(1), false)).log
         == [Swapped(Some(Row(key, 0, "r", Idle)), Some(Row(key, 0, "r", Streaming)), 1)]
  {
    OnlyRow(ReadThenStreaming(key).rows, Row(key, 0, "r", Streaming));
  }

  /** And it can happen: the row is read without a row lock, so it may start streaming before it is deleted. */
  lemma ResetCanDeleteStreaming() returns (actions: seq<Action>, s: State)
    ensures Run(actions, s) && |s.log| == 1 && s.log[0].Swapped?
    ensures s.log[0].deleted.Some? && s.log[0].deleted.value.status == Streaming
  {
    var key := Key("o", "u", "c");
    ProvisionedSteps(key);
    ReadSteps(key);
    CommitStep(key);
    actions, s := Perform([], START, Provision(0, key, "r", 0, Some(0), false));
    actions, s := Perform(actions, s, StartReset(1, key, "r"));
    actions, s := Perform(actions, s, SwapRead(1));
    actions, s := Perform(actions, s, SetStatus(0, Streaming));
    actions, s := Perform(actions, s, SwapCommit(1, 1, Some(1), false));
  }

  lemma Perform(actions: seq<Action>, s: State, a: Action) returns (next: seq<Action>, t: State)
    requires Run(actions, s) && Enabled(s, a)
    ensures next == actions + [a] && t == Step(s, a) && Run(next, t)
  {
    RunsOn(actions, s, a);
    next, t := actions + [a], Step(s, a);
  }

  /** A failed first provisioning leaves its upstream session behind, neither installed nor cleaned up. */
  lemma ProvisioningCanLeak() returns (actions: seq<Action>, s: State)
    ensures Run(actions, s) && s.calls.Keys == {0} && s.calls[0] == ProvisionReturned(Some(0))
    ensures 0 in s.issued && 0 !in s.installed && 0 !in s.cleaned
  {
    assert !HasKey(START.rows, Key("o", "u", "c"));
    actions, s := Perform([], START, Provision(0, Key("o", "u", "c"), "r", 0, Some(0), true));
  }

  /** A refresh has created session 1 for the row. */
  function Refreshing(key: Key, revision: string): State {
    State(map[0 := Row(key, 0, "r", Idle)],
          map[0 := ProvisionReturned(Some(0)), 1 := Installing(0, Row(key, 0, "r", Idle), true, revision, 1)],
          {0, 1}, {0}, {}, {}, [])
  }

  /** And a reset has seen session 0 in it. */
  function RefreshDuringReset(key: Key, revision: string): State {
    var s := Refreshing(key, revision);
    s.(calls := s.calls[2 := Swapping(key, revision, Some(Row(key, 0, "r", Idle)))])
  }

  /** Before that, the refresh has looked at the row. */
  function Refreshed(key: Key, revision: string): State {
    var s := Provisioned(key);
    s.(calls := s.calls[1 := Checking(0, Row(key, 0, "r", Idle), true, revision)])
  }

  lemma StartRefreshSteps(key: Key, revision: string) returns (actions: seq<Action>)
    requires revision != "r"
    ensures Run(actions, Refreshed(key, revision))
  {
    var s;
    ProvisionedSteps(key);
    actions, s := Perform([], START, Provision(0, key, "r", 0, Some(0), false));
    actions, s := Perform(actions, s, Load(1, 0));
    actions, s := Perform(actions, s, StartRefresh(1, revision));
    assert s == Refreshed(key, revision);
  }

  lemma RefreshSteps(key: Key, revision: string) returns (actions: seq<Action>)
    requires revision != "r"
    ensures Run(actions, Refreshing(key, revision))
  {
    var s := Refreshed(key, revision);
    actions := StartRefreshSteps(key, revision);
    actions, s := Perform(actions, s, FindTarget(1));
    actions, s := Perform(actions, s, CreateUpstream(1, Some(1)));
    assert s == Refreshing(key, revision);
  }

  lemma ResetReadSteps(actions: seq<Action>, key: Key, revision: string) returns (more: seq<Action>)
    requires Run(actions, Refreshing(key, revision))
    ensures Run(more, RefreshDuringReset(key, revision))
  {
    var s := Refreshing(key, revision);
    OnlyRow(s.rows, Row(key, 0, "r", Idle));
    more, s := Perform(actions, s, StartReset(2, key, revision));
    more, s := Perform(more, s, SwapRead(2));
    assert s == RefreshDuringReset(key, revision);
  }

  lemma InstallThenCommit(key: Key, revision: string)
    requires revision != "r"
    ensures var s := RefreshDuringReset(key, revision);
            var t := Step(s, Install(1, false));
            var row := Row(key, 1, revision, Idle);
            && t.rows == map[0 := row] && t.log == [Replaced(0, 1, Idle, true)]
            && Enabled(t, SwapCommit(2, 1, Some(2), false))
            && Step(t, SwapCommit(2, 1, Some(2), false)).log
               == [Replaced(0, 1, Idle, true), Swapped(Some(Row(key, 0, "r", Idle)), Some(row), 2)]
  {
    var t := Step(RefreshDuringReset(key, revision), Install(1, false));
    OnlyRow(t.rows, Row(key, 1, revision, Idle));
  }

  /** Session 1 is lost: it is installed after the reset has read the row, and the reset deletes it and retires session 0. */
  lemma ResetCanLoseSession() returns (actions: seq<Action>, s: State)
    ensures Run(actions, s) && Gone(s, 1) && !Archiving(s, 1) && 1 !in s.cleaned
  {
    var key := Key("o", "u", "c");
    actions := RefreshSteps(key, "");
    actions := ResetReadSteps(actions, key, "");
    InstallThenCommit(key, "");
    actions, s := Perform(actions, RefreshDuringReset(key, ""), Install(1, false));
    actions, s := Perform(actions, s, SwapCommit(2, 1, Some(2), false));
    LosesNewSession(Row(key, 0, "r", Idle), Row(key, 1, "", Idle));
    SessionIsLostIff(actions, s, 1);
    EveryRunKeepsInvariant(actions, s);
  }

  lemma LosesNewSession(seen: Row, deleted: Row)
    requires seen.provider == 0 && deleted.provider == 1
    ensures var log := [Replaced(0, 1, Idle, true), Swapped(Some(seen), Some(deleted), 2)];
            Dropped(log, 1) && !Retired(log, 1)
  {
    var replaced, swapped := Replaced(0, 1, Idle, true), Swapped(Some(seen), Some(deleted), 2);
    OneMoreEvent([], replaced, 1);
    OneMoreEvent([] + [replaced], swapped, 1);
    assert [] + [replaced] + [swapped] == [replaced, swapped];
  }

  /** A failed session, which one call has loaded. */
  function FailedSession(key: Key): State {
    var s := Provisioned(key);
    s.(rows := map[0 := Row(key, 0, "r", Failed)], calls := s.calls[1 := Loaded(0, Row(key, 0, "r", Failed))])
  }

  lemma FailedSessionSteps(key: Key) returns (actions: seq<Action>)
    ensures Run(actions, FailedSession(key))
  {
    var s;
    ProvisionedSteps(key);
    actions, s := Perform([], START, Provision(0, key, "r", 0, Some(0), false));
    actions, s := Perform(actions, s, SetStatus(0, Failed));
    assert s.rows == map[0 := Row(key, 0, "r", Failed)];
    actions, s := Perform(actions, s, Load(1, 0));
    assert s == FailedSession(key);
  }

  lemma RecoveryCanCreate(key: Key) returns (actions: seq<Action>, s: State)
    ensures Run(actions, s) && s.rows == map[0 := Row(key, 0, "r", Failed)] && 1 !in s.issued
    ensures 1 in s.calls && s.calls[1] == Creating(0, Row(key, 0, "r", Failed), false, "r")
  {
    s := FailedSession(key);
    actions := FailedSessionSteps(key);
    StartGoesOnIff(s, 1, "r");
    actions, s := Perform(actions, s, StartRecover(1, "r"));
    FindTargetGoesOnIff(s, 1);
    actions, s := Perform(actions, s, FindTarget(1));
  }

  /** A recovery does replace a failed session, also at the same revision. */
  lemma RecoveryCanInstall(key: Key) returns (actions: seq<Action>, s: State)
    ensures Run(actions, s) && s.rows == map[0 := Row(key, 1, "r", Idle)]
    ensures 1 in s.calls && s.calls[1] == Returned(Some(1))
  {
    actions, s := RecoveryCanCreate(key);
    actions, s := Perform(actions, s, CreateUpstream(1, Some(1)));
    InstallReplacesIff(s, 1, false);
    actions, s := Perform(actions, s, Install(1, false));
  }
}
