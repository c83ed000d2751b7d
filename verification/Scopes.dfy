/** The permission language of scoped tokens: printing permissions as scopes and parsing them back. */
module Scopes {
  import opened Options
  import opened Sequences
  import opened Text

  datatype Permission = Permission(resourceType: string, action: string, resources: seq<string>)

  /** What one scope permits: an action on all resources of a type, or on one of them. */
  datatype Grant = Grant(resourceType: string, action: string, resource: Option<string>)

  // ----- normalization -----

  predicate Normal(values: seq<string>) {
    && (forall v :: v in values ==> v != "" && Trimmed(v))
    && (forall i, j :: 0 <= i < j < |values| ==> values[i] != values[j])
  }

  function NormalizeValues(values: seq<string>): (r: seq<string>)
    ensures Normal(r)
    ensures forall v :: v in r <==> v != "" && exists w :: w in values && v == TrimSpace(w)
  {
    if values == [] then []
    else
      var front, last := values[..|values| - 1], values[|values| - 1];
      assert values == front + [last];
      var rest := NormalizeValues(front);
      var trimmed := TrimSpace(last);
      if trimmed == "" || trimmed in rest then rest else rest + [trimmed]
  }

  method NormalizeScopedTokenValues(values: seq<string>) returns (normalized: seq<string>)
    ensures normalized == NormalizeValues(values)
  {
    normalized := [];
    for i := 0 to |values|
      invariant normalized == NormalizeValues(values[..i])
    {
      assert values[..i + 1][..i] == values[..i];
      var trimmed := TrimSpace(values[i]);
      if trimmed == "" {
        continue;
      }
      if trimmed in normalized {
        continue;
      }
      normalized := normalized + [trimmed];
    }
    assert values[..|values|] == values;
  }

  lemma {:induction false} NormalizePrefix(values: seq<string>, i: nat)
    requires i <= |values|
    ensures NormalizeValues(values[..i]) <= NormalizeValues(values)
  {
    var n := |values| - 1;
    if i == |values| {
      assert values[..i] == values;
    } else {
      assert values[..n][..i] == values[..i];
      NormalizePrefix(values[..n], i);
      assert NormalizeValues(values[..n]) <= NormalizeValues(values);
    }
  }

  lemma NormalizeAppend(front: seq<string>, last: string)
    ensures NormalizeValues(front + [last])
            == if TrimSpace(last) == "" || TrimSpace(last) in NormalizeValues(front) then NormalizeValues(front)
               else NormalizeValues(front) + [TrimSpace(last)]
  {
    assert (front + [last])[..|front|] == front;
  }

  /** A value that was not mentioned before stands just behind those that were. */
  lemma NormalizeKeepsOrder(front: seq<string>, value: string, later: seq<string>)
    requires TrimSpace(value) != "" && TrimSpace(value) !in NormalizeValues(front)
    ensures NormalizeValues(front) + [TrimSpace(value)] <= NormalizeValues(front + [value] + later)
  {
    var values := front + [value] + later;
    assert values[..|front| + 1] == front + [value];
    NormalizeAppend(front, value);
    NormalizePrefix(values, |front| + 1);
  }

  lemma {:induction false} NormalizeNormal(values: seq<string>)
    requires Normal(values)
    ensures NormalizeValues(values) == values
  {
    if values != [] {
      var n := |values| - 1;
      assert values == values[..n] + [values[n]] && values[n] in values;
      assert forall v :: v in values[..n] ==> v in values;
      NormalizeNormal(values[..n]);
    }
  }

  function Normalized(p: Permission): Permission {
    Permission(TrimSpace(p.resourceType), TrimSpace(p.action), NormalizeValues(p.resources))
  }

  predicate NormalPermission(p: Permission) {
    p.resourceType != "" && Trimmed(p.resourceType) && p.action != "" && Trimmed(p.action) && Normal(p.resources)
  }

  function NormalizePermissions(permissions: seq<Permission>): (r: seq<Permission>)
    ensures forall p :: p in r ==> NormalPermission(p)
    ensures forall i, j :: 0 <= i < j < |r| ==> r[i] != r[j]
  {
    if permissions == [] then []
    else
      var rest := NormalizePermissions(permissions[..|permissions| - 1]);
      var p := Normalized(permissions[|permissions| - 1]);
      if p.resourceType == "" || p.action == "" || p in rest then rest else rest + [p]
  }

  method NormalizeScopedTokenPermissions(permissions: seq<Permission>) returns (normalized: seq<Permission>)
    ensures normalized == NormalizePermissions(permissions)
  {
    normalized := [];
    for i := 0 to |permissions|
      invariant normalized == NormalizePermissions(permissions[..i])
    {
      assert permissions[..i + 1][..i] == permissions[..i];
      var resourceType, action := TrimSpace(permissions[i].resourceType), TrimSpace(permissions[i].action);
      if resourceType == "" || action == "" {
        continue;
      }
      var resources := NormalizeScopedTokenValues(permissions[i].resources);
      var permission := Permission(resourceType, action, resources);
      if permission in normalized {
        continue;
      }
      normalized := normalized + [permission];
    }
    assert permissions[..|permissions|] == permissions;
  }

  /** The permissions whose type and action are not blank, all trimmed. */
  lemma {:induction false} NormalizedPermissionsAre(permissions: seq<Permission>, p: Permission)
    ensures p in NormalizePermissions(permissions)
            <==> exists q :: && q in permissions && TrimSpace(q.resourceType) != "" && TrimSpace(q.action) != ""
                             && p == Permission(TrimSpace(q.resourceType), TrimSpace(q.action), NormalizeValues(q.resources))
  {
    if permissions != [] {
      var front, last := permissions[..|permissions| - 1], permissions[|permissions| - 1];
      assert permissions == front + [last];
      NormalizedPermissionsAre(front, p);
    }
  }

  lemma {:induction false} NormalizeNormalPermissions(permissions: seq<Permission>)
    requires forall p :: p in permissions ==> NormalPermission(p)
    requires forall i, j :: 0 <= i < j < |permissions| ==> permissions[i] != permissions[j]
    ensures NormalizePermissions(permissions) == permissions
  {
    if permissions != [] {
      var n := |permissions| - 1;
      var last := permissions[n];
      assert permissions == permissions[..n] + [last] && last in permissions;
      assert forall p :: p in permissions[..n] ==> p in permissions;
      NormalizeNormalPermissions(permissions[..n]);
      NormalizeNormal(last.resources);
    }
  }

  // ----- grants -----

  function GrantsOfPermission(p: Permission): (gs: seq<Grant>)
    ensures p.resources == [] ==> gs == [Grant(p.resourceType, p.action, None)]
    ensures p.resources != [] ==> |gs| == |p.resources|
    ensures forall i :: 0 <= i < |p.resources| ==> gs[i] == Grant(p.resourceType, p.action, Some(p.resources[i]))
  {
    if p.resources == [] then [Grant(p.resourceType, p.action, None)]
    else seq(|p.resources|, i requires 0 <= i < |p.resources| => Grant(p.resourceType, p.action, Some(p.resources[i])))
  }

  /** Everything the permissions permit, in their order. */
  function GrantsOf(permissions: seq<Permission>): seq<Grant> {
    if permissions == [] then []
    else GrantsOf(permissions[..|permissions| - 1]) + GrantsOfPermission(permissions[|permissions| - 1])
  }

  predicate GoodGrant(g: Grant) {
    && g.resourceType != "" && Trimmed(g.resourceType) && g.action != "" && Trimmed(g.action)
    && (g.resource.Some? ==> g.resource.value != "" && Trimmed(g.resource.value))
  }

  predicate ColonFreeGrant(g: Grant) {
    ColonFree(g.resourceType) && ColonFree(g.action) && (g.resource.Some? ==> ColonFree(g.resource.value))
  }

  function PrintGrant(g: Grant): string {
    var prefix := g.resourceType + ":" + g.action;
    if g.resource.None? then prefix else prefix + ":" + g.resource.value
  }

  function PrintGrants(gs: seq<Grant>): (r: seq<string>)
    ensures |r| == |gs| && forall i :: 0 <= i < |gs| ==> r[i] == PrintGrant(gs[i])
  {
    seq(|gs|, i requires 0 <= i < |gs| => PrintGrant(gs[i]))
  }

  /** What a single scope permits, if it is well-formed. */
  function ParseScope(scope: string): (r: Option<Grant>)
    ensures r.Some? ==> GoodGrant(r.value) && ColonFreeGrant(r.value)
  {
    var parts := Split(scope);
    if |parts| != 2 && |parts| != 3 then None
    else
      assert forall i :: 0 <= i < |parts| ==> parts[i] in parts;
      var resourceType, action := TrimSpace(parts[0]), TrimSpace(parts[1]);
      if resourceType == "" || action == "" then None
      else if |parts| == 2 then Some(Grant(resourceType, action, None))
      else
        var resource := TrimSpace(parts[2]);
        if resource == "" then None else Some(Grant(resourceType, action, Some(resource)))
  }

  predicate Blank(s: string) {
    forall c :: c in s ==> IsSpace(c)
  }

  /** A type and an action, with one colon between them; the parts hold no other colon and are not blank. */
  predicate IsTypeAndAction(scope: string, a: string, b: string) {
    scope == a + ":" + b && ColonFree(a) && ColonFree(b) && !Blank(a) && !Blank(b)
  }

  /** And a resource, after another colon. */
  predicate IsTypeActionAndResource(scope: string, a: string, b: string, c: string) {
    && scope == a + ":" + b + ":" + c && ColonFree(a) && ColonFree(b) && ColonFree(c)
    && !Blank(a) && !Blank(b) && !Blank(c)
  }

  /** What a scope means, written down. */
  ghost predicate Means(scope: string, g: Grant) {
    || (exists a, b :: IsTypeAndAction(scope, a, b) && g == Grant(TrimSpace(a), TrimSpace(b), None))
    || (exists a, b, c :: IsTypeActionAndResource(scope, a, b, c)
                          && g == Grant(TrimSpace(a), TrimSpace(b), Some(TrimSpace(c))))
  }

  lemma SplitOfTwo(scope: string, a: string, b: string)
    requires ColonFree(a) && ColonFree(b)
    ensures scope == a + ":" + b <==> Split(scope) == [a, b]
  {
    SplitAtColon(a, b);
    SplitColonFree(b);
    SplitJoins(scope);
    assert [a, b][1..] == [b];
  }

  lemma SplitOfThree(scope: string, a: string, b: string, c: string)
    requires ColonFree(a) && ColonFree(b) && ColonFree(c)
    ensures scope == a + ":" + b + ":" + c <==> Split(scope) == [a, b, c]
  {
    assert a + ":" + b + ":" + c == a + ":" + (b + ":" + c);
    SplitAtColon(a, b + ":" + c);
    SplitAtColon(b, c);
    SplitColonFree(c);
    SplitJoins(scope);
    JoinOfThree(a, b, c);
  }

  lemma JoinOfThree(a: string, b: string, c: string)
    ensures Join([a, b, c]) == a + ":" + b + ":" + c
  {
    assert [a, b, c][1..] == [b, c] && [b, c][1..] == [c];
    assert Join([b, c]) == b + ":" + c;
    assert a + ":" + (b + ":" + c) == a + ":" + b + ":" + c;
  }

  lemma ParsedHasMeaning(scope: string)
    requires ParseScope(scope).Some?
    ensures Means(scope, ParseScope(scope).value)
  {
    var parts := Split(scope);
    assert forall i :: 0 <= i < |parts| ==> parts[i] in parts;
    BlankIff(parts[0]);
    BlankIff(parts[1]);
    if |parts| == 2 {
      SplitOfTwo(scope, parts[0], parts[1]);
      assert parts == [parts[0], parts[1]];
      assert IsTypeAndAction(scope, parts[0], parts[1]);
    } else {
      BlankIff(parts[2]);
      SplitOfThree(scope, parts[0], parts[1], parts[2]);
      assert parts == [parts[0], parts[1], parts[2]];
      assert IsTypeActionAndResource(scope, parts[0], parts[1], parts[2]);
    }
  }

  /** A scope is parsed exactly to what it means: two or three parts, none of them blank, which are trimmed. Everything else
      is not a scope, in particular with a blank resource. */
  lemma ParseScopeIff(scope: string, g: Grant)
    ensures ParseScope(scope) == Some(g) <==> Means(scope, g)
  {
    if ParseScope(scope).Some? {
      ParsedHasMeaning(scope);
    }
    if a, b :| IsTypeAndAction(scope, a, b) && g == Grant(TrimSpace(a), TrimSpace(b), None) {
      ParseOfTwo(scope, a, b);
    }
    if a, b, c :| IsTypeActionAndResource(scope, a, b, c) && g == Grant(TrimSpace(a), TrimSpace(b), Some(TrimSpace(c))) {
      ParseOfThree(scope, a, b, c);
    }
  }

  lemma ParseOfTwo(scope: string, a: string, b: string)
    requires IsTypeAndAction(scope, a, b)
    ensures ParseScope(scope) == Some(Grant(TrimSpace(a), TrimSpace(b), None))
  {
    SplitOfTwo(scope, a, b);
    BlankIff(a);
    BlankIff(b);
  }

  lemma ParseOfThree(scope: string, a: string, b: string, c: string)
    requires IsTypeActionAndResource(scope, a, b, c)
    ensures ParseScope(scope) == Some(Grant(TrimSpace(a), TrimSpace(b), Some(TrimSpace(c))))
  {
    SplitOfThree(scope, a, b, c);
    BlankIff(a);
    BlankIff(b);
    BlankIff(c);
  }

  lemma ParsePrinted(g: Grant)
    requires GoodGrant(g) && ColonFreeGrant(g)
    ensures ParseScope(PrintGrant(g)) == Some(g)
  {
    if g.resource.None? {
      SplitAtColon(g.resourceType, g.action);
      SplitColonFree(g.action);
    } else {
      assert PrintGrant(g) == g.resourceType + ":" + (g.action + ":" + g.resource.value);
      SplitAtColon(g.resourceType, g.action + ":" + g.resource.value);
      SplitAtColon(g.action, g.resource.value);
      SplitColonFree(g.resource.value);
    }
  }

  lemma PrintedIsTrimmed(g: Grant)
    requires GoodGrant(g)
    ensures Trimmed(PrintGrant(g)) && PrintGrant(g) != ""
  {
    var s := PrintGrant(g);
    assert s[0] == g.resourceType[0];
    assert s[|s| - 1] == if g.resource.None? then g.action[|g.action| - 1] else g.resource.value[|g.resource.value| - 1];
  }

  // ----- printing -----

  function ScopesOf(permissions: seq<Permission>): seq<string> {
    NormalizeValues(PrintGrants(GrantsOf(NormalizePermissions(permissions))))
  }

  function Printed(p: Permission): (r: seq<string>)
    ensures p.resources == [] ==> r == [p.resourceType + ":" + p.action]
    ensures p.resources != [] ==> |r| == |p.resources|
    ensures forall i :: 0 <= i < |p.resources| ==> r[i] == p.resourceType + ":" + p.action + ":" + p.resources[i]
  {
    PrintGrants(GrantsOfPermission(p))
  }

  lemma PrefixGrows<T>(s: seq<T>, i: nat)
    requires i < |s|
    ensures s[..i + 1] == s[..i] + [s[i]]
  {
  }

  lemma OneMorePermission(permissions: seq<Permission>, i: nat)
    requires i < |permissions|
    ensures PrintGrants(GrantsOf(permissions[..i + 1])) == PrintGrants(GrantsOf(permissions[..i])) + Printed(permissions[i])
  {
    assert permissions[..i + 1][..i] == permissions[..i];
  }

  method ScopesFromPermissions(permissions: seq<Permission>) returns (scopes: seq<string>)
    ensures scopes == ScopesOf(permissions)
  {
    var normalized := NormalizeScopedTokenPermissions(permissions);
    scopes := [];
    for i := 0 to |normalized|
      invariant scopes == PrintGrants(GrantsOf(normalized[..i]))
    {
      var permission := normalized[i];
      ghost var before, printed := scopes, Printed(permission);
      OneMorePermission(normalized, i);
      var scopePrefix := permission.resourceType + ":" + permission.action;
      if |permission.resources| == 0 {
        scopes := scopes + [scopePrefix];
        continue;
      }
      for j := 0 to |permission.resources|
        invariant scopes == before + printed[..j]
      {
        PrefixGrows(printed, j);
        scopes := scopes + [scopePrefix + ":" + permission.resources[j]];
      }
      assert printed[..|printed|] == printed;
    }
    assert normalized[..|normalized|] == normalized;
    scopes := NormalizeScopedTokenValues(scopes);
  }

  /** The scope says a type and an action of the permission, and a resource unless it has none. */
  ghost predicate Says(scope: string, q: Permission) {
    var t, a := TrimSpace(q.resourceType), TrimSpace(q.action);
    && t != "" && a != ""
    && if forall w :: w in q.resources ==> TrimSpace(w) == "" then scope == t + ":" + a
       else exists w :: w in q.resources && TrimSpace(w) != "" && scope == t + ":" + a + ":" + TrimSpace(w)
  }

  lemma NoResources(resources: seq<string>)
    ensures NormalizeValues(resources) == [] <==> forall w :: w in resources ==> TrimSpace(w) == ""
  {
    var normalized := NormalizeValues(resources);
    if normalized != [] {
      assert normalized[0] in normalized;
    }
    if w :| w in resources && TrimSpace(w) != "" {
      assert TrimSpace(w) in normalized;
    }
  }

  lemma PrintedSays(q: Permission, scope: string)
    requires TrimSpace(q.resourceType) != "" && TrimSpace(q.action) != ""
    ensures scope in Printed(Normalized(q)) <==> Says(scope, q)
  {
    var p := Normalized(q);
    NoResources(q.resources);
    if p.resources != [] {
      PrintedResources(p, scope);
      forall v ensures v in p.resources <==> exists w :: w in q.resources && TrimSpace(w) != "" && TrimSpace(w) == v {
      }
    }
  }

  lemma PrintedResources(p: Permission, scope: string)
    requires p.resources != []
    ensures scope in Printed(p)
            <==> exists v :: v in p.resources && scope == p.resourceType + ":" + p.action + ":" + v
  {
    if scope in Printed(p) {
      var i :| 0 <= i < |Printed(p)| && Printed(p)[i] == scope;
      assert p.resources[i] in p.resources;
    }
    if v :| v in p.resources && scope == p.resourceType + ":" + p.action + ":" + v {
      var i :| 0 <= i < |p.resources| && p.resources[i] == v;
      assert Printed(p)[i] == scope;
    }
  }

  lemma {:induction false} PrintedGrantsAre(permissions: seq<Permission>, scope: string)
    ensures scope in PrintGrants(GrantsOf(permissions)) <==> exists p :: p in permissions && scope in Printed(p)
  {
    if permissions != [] {
      var n := |permissions| - 1;
      PrintedGrantsAre(permissions[..n], scope);
      OneMorePermission(permissions, n);
      assert permissions[..n + 1] == permissions;
      InFrontOrLast(permissions);
      assert scope in PrintGrants(GrantsOf(permissions))
             <==> scope in PrintGrants(GrantsOf(permissions[..n])) || scope in Printed(permissions[n]);
    } else {
      assert PrintGrants([]) == [];
    }
  }

  lemma InFrontOrLast<T>(s: seq<T>)
    requires s != []
    ensures forall x :: x in s <==> x in s[..|s| - 1] || x == s[|s| - 1]
  {
    assert s == s[..|s| - 1] + [s[|s| - 1]];
  }

  lemma PrintedAreNormal(permissions: seq<Permission>, scope: string)
    requires scope in PrintGrants(GrantsOf(NormalizePermissions(permissions)))
    ensures Trimmed(scope) && scope != ""
  {
    var normalized := NormalizePermissions(permissions);
    PrintedGrantsAre(normalized, scope);
    var p :| p in normalized && scope in Printed(p);
    var i :| 0 <= i < |Printed(p)| && Printed(p)[i] == scope;
    if p.resources != [] {
      assert p.resources[i] in p.resources;
    }
    PrintedIsTrimmed(GrantsOfPermission(p)[i]);
  }

  /** The scopes of permissions are those that say one of them. */
  lemma ScopesAreWhatIsSaid(permissions: seq<Permission>, scope: string)
    ensures scope in ScopesOf(permissions) <==> exists q :: q in permissions && Says(scope, q)
  {
    var normalized := NormalizePermissions(permissions);
    var printed := PrintGrants(GrantsOf(normalized));
    forall w | w in printed ensures TrimSpace(w) == w && w != "" {
      PrintedAreNormal(permissions, w);
    }
    assert scope in ScopesOf(permissions) <==> scope in printed;
    PrintedGrantsAre(normalized, scope);
    if p :| p in normalized && scope in Printed(p) {
      NormalizedPermissionsAre(permissions, p);
      var q :| q in permissions && TrimSpace(q.resourceType) != "" && TrimSpace(q.action) != "" && p == Normalized(q);
      PrintedSays(q, scope);
    }
    if q :| q in permissions && Says(scope, q) {
      NormalizedPermissionsAre(permissions, Normalized(q));
      PrintedSays(q, scope);
    }
  }

  // ----- parsing -----

  /** What permissions are grouped by: the type, the action, and whether all resources are meant. */
  datatype Key = Key(resourceType: string, action: string, global: bool)

  function KeyOf(p: Permission): Key {
    Key(p.resourceType, p.action, p.resources == [])
  }

  function GrantKey(g: Grant): Key {
    Key(g.resourceType, g.action, g.resource.None?)
  }

  /** Valid permissions, no two of which could be grouped together. */
  predicate Grouped(permissions: seq<Permission>) {
    && (forall p :: p in permissions ==> NormalPermission(p))
    && (forall i, j :: 0 <= i < j < |permissions| ==> KeyOf(permissions[i]) != KeyOf(permissions[j]))
  }

  /** The position of the first permission with a key, or the length when there is none. */
  function Slot(permissions: seq<Permission>, key: Key): (i: nat)
    ensures i <= |permissions|
    ensures i < |permissions| ==> KeyOf(permissions[i]) == key
    ensures forall j :: 0 <= j < i ==> KeyOf(permissions[j]) != key
  {
    if permissions == [] || KeyOf(permissions[0]) == key then 0 else Slot(permissions[1..], key) + 1
  }

  function Started(g: Grant): Permission {
    Permission(g.resourceType, g.action, if g.resource.Some? then [g.resource.value] else [])
  }

  function Extended(p: Permission, g: Grant): Permission {
    if g.resource.None? || g.resource.value in p.resources then p
    else p.(resources := p.resources + [g.resource.value])
  }

  /** Adds a grant to the permission that groups it, or starts a new permission. */
  function AddGrant(permissions: seq<Permission>, g: Grant): seq<Permission> {
    var i := Slot(permissions, GrantKey(g));
    if i < |permissions| then permissions[i := Extended(permissions[i], g)] else permissions + [Started(g)]
  }

  function AddGrants(permissions: seq<Permission>, gs: seq<Grant>): seq<Permission> {
    if gs == [] then permissions else AddGrant(AddGrants(permissions, gs[..|gs| - 1]), gs[|gs| - 1])
  }

  function Grouping(scopes: seq<string>): seq<Permission> {
    if scopes == [] then []
    else
      var rest := Grouping(scopes[..|scopes| - 1]);
      match ParseScope(scopes[|scopes| - 1])
      case None => rest
      case Some(g) => AddGrant(rest, g)
  }

  function PermissionsOf(scopes: seq<string>): seq<Permission> {
    NormalizePermissions(Grouping(NormalizeValues(scopes)))
  }

  lemma AddGrantKeepsGrouped(permissions: seq<Permission>, g: Grant)
    requires Grouped(permissions) && GoodGrant(g)
    ensures Grouped(AddGrant(permissions, g))
  {
    var i := Slot(permissions, GrantKey(g));
    var after := AddGrant(permissions, g);
    if i < |permissions| {
      assert permissions[i] in permissions;
      assert KeyOf(Extended(permissions[i], g)) == KeyOf(permissions[i]);
      assert forall p :: p in after ==> p in permissions || p == Extended(permissions[i], g);
    }
  }

  lemma {:induction false} GroupingIsGrouped(scopes: seq<string>)
    ensures Grouped(Grouping(scopes))
  {
    if scopes != [] {
      GroupingIsGrouped(scopes[..|scopes| - 1]);
      var r := ParseScope(scopes[|scopes| - 1]);
      if r.Some? {
        AddGrantKeepsGrouped(Grouping(scopes[..|scopes| - 1]), r.value);
      }
    }
  }

  ghost predicate Indexed(indexByKey: map<Key, nat>, permissions: seq<Permission>) {
    && (forall k :: k in indexByKey ==> indexByKey[k] < |permissions| && KeyOf(permissions[indexByKey[k]]) == k)
    && (forall i :: 0 <= i < |permissions| ==> KeyOf(permissions[i]) in indexByKey)
  }

  lemma IndexIsSlot(indexByKey: map<Key, nat>, permissions: seq<Permission>, key: Key)
    requires Indexed(indexByKey, permissions) && Grouped(permissions)
    ensures key in indexByKey ==> indexByKey[key] == Slot(permissions, key)
    ensures key !in indexByKey ==> Slot(permissions, key) == |permissions|
  {
  }

  lemma IndexedStarted(indexByKey: map<Key, nat>, permissions: seq<Permission>, p: Permission)
    requires Indexed(indexByKey, permissions) && KeyOf(p) !in indexByKey
    ensures Indexed(indexByKey[KeyOf(p) := |permissions|], permissions + [p])
  {
  }

  lemma IndexedExtended(indexByKey: map<Key, nat>, permissions: seq<Permission>, i: nat, p: Permission)
    requires Indexed(indexByKey, permissions) && i < |permissions| && KeyOf(p) == KeyOf(permissions[i])
    ensures Indexed(indexByKey, permissions[i := p])
  {
  }

  lemma OneMoreScope(scopes: seq<string>, i: nat)
    requires i < |scopes|
    ensures ParseScope(scopes[i]).None? ==> Grouping(scopes[..i + 1]) == Grouping(scopes[..i])
    ensures ParseScope(scopes[i]).Some?
            ==> Grouping(scopes[..i + 1]) == AddGrant(Grouping(scopes[..i]), ParseScope(scopes[i]).value)
    ensures Grouped(Grouping(scopes[..i]))
  {
    assert scopes[..i + 1][..i] == scopes[..i];
    GroupingIsGrouped(scopes[..i]);
  }

  method PermissionsFromScopes(scopes: seq<string>) returns (result: seq<Permission>)
    ensures result == PermissionsOf(scopes)
  {
    var normalizedScopes := NormalizeScopedTokenValues(scopes);
    var permissions: seq<Permission> := [];
    var indexByKey: map<Key, nat> := map[];
    for i := 0 to |normalizedScopes|
      invariant permissions == Grouping(normalizedScopes[..i])
      invariant Indexed(indexByKey, permissions)
    {
      OneMoreScope(normalizedScopes, i);
      var parts := Split(normalizedScopes[i]);
      if |parts| != 2 && |parts| != 3 {
        continue;
      }
      var resourceType, action := TrimSpace(parts[0]), TrimSpace(parts[1]);
      if resourceType == "" || action == "" {
        continue;
      }
      if |parts| == 2 {
        var key := Key(resourceType, action, true);
        IndexIsSlot(indexByKey, permissions, key);
        if key in indexByKey {
          continue;
        }
        IndexedStarted(indexByKey, permissions, Permission(resourceType, action, []));
        indexByKey := indexByKey[key := |permissions|];
        permissions := permissions + [Permission(resourceType, action, [])];
        continue;
      }
      var resourceID := TrimSpace(parts[2]);
      if resourceID == "" {
        continue;
      }
      var key := Key(resourceType, action, false);
      IndexIsSlot(indexByKey, permissions, key);
      if key in indexByKey {
        var idx := indexByKey[key];
        if resourceID !in permissions[idx].resources {
          var extended := permissions[idx].(resources := permissions[idx].resources + [resourceID]);
          IndexedExtended(indexByKey, permissions, idx, extended);
          permissions := permissions[idx := extended];
        }
        continue;
      }
      IndexedStarted(indexByKey, permissions, Permission(resourceType, action, [resourceID]));
      indexByKey := indexByKey[key := |permissions|];
      permissions := permissions + [Permission(resourceType, action, [resourceID])];
    }
    assert normalizedScopes[..|normalizedScopes|] == normalizedScopes;
    result := NormalizeScopedTokenPermissions(permissions);
  }

  // ----- what the parsed permissions permit -----

  predicate Permits(p: Permission, g: Grant) {
    && p.resourceType == g.resourceType && p.action == g.action
    && (if g.resource.None? then p.resources == [] else g.resource.value in p.resources)
  }

  lemma {:induction false} GrantsAreWhatIsPermitted(permissions: seq<Permission>, g: Grant)
    ensures g in GrantsOf(permissions) <==> exists p :: p in permissions && Permits(p, g)
  {
    if permissions != [] {
      var n := |permissions| - 1;
      var last := permissions[n];
      GrantsAreWhatIsPermitted(permissions[..n], g);
      assert permissions == permissions[..n] + [last];
      assert g in GrantsOfPermission(last) <==> Permits(last, g) by {
        if Permits(last, g) {
          if g.resource.None? {
            assert GrantsOfPermission(last)[0] == g;
          } else {
            var i :| 0 <= i < |last.resources| && last.resources[i] == g.resource.value;
            assert GrantsOfPermission(last)[i] == g;
          }
        }
      }
    }
  }

  lemma AddGrantAddsOne(permissions: seq<Permission>, g: Grant, h: Grant)
    requires Grouped(permissions) && GoodGrant(g)
    ensures (exists p :: p in AddGrant(permissions, g) && Permits(p, h))
            <==> h == g || exists p :: p in permissions && Permits(p, h)
  {
    var i := Slot(permissions, GrantKey(g));
    var after := AddGrant(permissions, g);
    if i < |permissions| {
      var was, now := permissions[i], Extended(permissions[i], g);
      assert after[i] == now;
      assert Permits(now, h) <==> h == g || Permits(was, h);
      assert forall p :: p in after ==> p == now || p in permissions;
      assert forall p :: p in permissions ==> p == was || p in after by {
        forall p | p in permissions && p != was ensures p in after {
          var j :| 0 <= j < |permissions| && permissions[j] == p;
          assert after[j] == p;
        }
      }
    } else {
      assert Permits(Started(g), h) <==> h == g;
    }
  }

  ghost predicate SomeScopeGrants(scopes: seq<string>, g: Grant) {
    exists x :: x in scopes && ParseScope(TrimSpace(x)) == Some(g)
  }

  lemma {:induction false} GroupingGrants(scopes: seq<string>, g: Grant)
    requires forall x :: x in scopes ==> Trimmed(x)
    ensures (exists p :: p in Grouping(scopes) && Permits(p, g)) <==> SomeScopeGrants(scopes, g)
  {
    if scopes != [] {
      var n := |scopes| - 1;
      var front, last := scopes[..n], scopes[n];
      assert scopes == front + [last] && last in scopes;
      assert forall x :: x in front ==> x in scopes;
      GroupingGrants(front, g);
      GroupingIsGrouped(front);
      var r := ParseScope(last);
      if r.Some? {
        AddGrantAddsOne(Grouping(front), r.value, g);
      }
    }
  }

  lemma GroupedIsNormal(permissions: seq<Permission>)
    requires Grouped(permissions)
    ensures NormalizePermissions(permissions) == permissions
  {
    NormalizeNormalPermissions(permissions);
  }

  lemma NormalizingKeepsAuthority(scopes: seq<string>, g: Grant)
    ensures SomeScopeGrants(NormalizeValues(scopes), g) <==> SomeScopeGrants(scopes, g)
  {
    if SomeScopeGrants(scopes, g) {
      var x :| x in scopes && ParseScope(TrimSpace(x)) == Some(g);
      assert TrimSpace(x) != "";
      assert TrimSpace(x) in NormalizeValues(scopes) && TrimSpace(TrimSpace(x)) == TrimSpace(x);
    }
  }

  /** Grouping scopes into permissions neither loses nor adds authority. */
  lemma GroupingKeepsAuthority(scopes: seq<string>, g: Grant)
    ensures g in GrantsOf(PermissionsOf(scopes)) <==> SomeScopeGrants(scopes, g)
  {
    var normalized := NormalizeValues(scopes);
    GroupingIsGrouped(normalized);
    GroupedIsNormal(Grouping(normalized));
    GrantsAreWhatIsPermitted(PermissionsOf(scopes), g);
    GroupingGrants(normalized, g);
    NormalizingKeepsAuthority(scopes, g);
  }

  // ----- printing what was parsed -----

  lemma {:induction false} AddGrantsAppend(permissions: seq<Permission>, a: seq<Grant>, b: seq<Grant>)
    ensures AddGrants(permissions, a + b) == AddGrants(AddGrants(permissions, a), b)
  {
    if b == [] {
      assert a + b == a;
    } else {
      var n := |b| - 1;
      assert (a + b)[..|a + b| - 1] == a + b[..n];
      AddGrantsAppend(permissions, a, b[..n]);
    }
  }

  lemma AddNewGrant(permissions: seq<Permission>, p: Permission, g: Grant)
    requires GrantKey(g) == KeyOf(p) && forall q :: q in permissions ==> KeyOf(q) != KeyOf(p)
    ensures AddGrant(permissions, g) == permissions + [Started(g)]
  {
    assert Slot(permissions, GrantKey(g)) == |permissions|;
  }

  lemma AddToLast(permissions: seq<Permission>, p: Permission, g: Grant)
    requires GrantKey(g) == KeyOf(p) && forall q :: q in permissions ==> KeyOf(q) != KeyOf(p)
    ensures AddGrant(permissions + [p], g) == permissions + [Extended(p, g)]
  {
    var all := permissions + [p];
    assert all[|permissions|] == p && forall i :: 0 <= i < |permissions| ==> all[i] in permissions;
    assert Slot(all, GrantKey(g)) == |permissions|;
  }

  lemma {:induction false} RegroupResources(permissions: seq<Permission>, p: Permission, k: nat)
    requires NormalPermission(p) && 1 <= k <= |p.resources|
    requires forall q :: q in permissions ==> KeyOf(q) != KeyOf(p)
    ensures AddGrants(permissions, GrantsOfPermission(p)[..k]) == permissions + [p.(resources := p.resources[..k])]
  {
    var gs := GrantsOfPermission(p);
    var g := gs[k - 1];
    assert gs[..k][..k - 1] == gs[..k - 1];
    if k == 1 {
      AddNewGrant(permissions, p, g);
      assert p.resources[..1] == [p.resources[0]];
    } else {
      var before := p.(resources := p.resources[..k - 1]);
      RegroupResources(permissions, p, k - 1);
      AddToLast(permissions, before, g);
      PrefixGrows(p.resources, k - 1);
    }
  }

  lemma RegroupOne(permissions: seq<Permission>, p: Permission)
    requires Grouped(permissions + [p])
    ensures AddGrants(permissions, GrantsOfPermission(p)) == permissions + [p]
  {
    var all := permissions + [p];
    assert p in all && all[|permissions|] == p && forall q :: q in permissions ==> q in all;
    assert forall i :: 0 <= i < |permissions| ==> all[i] == permissions[i];
    var gs := GrantsOfPermission(p);
    if p.resources == [] {
      assert gs[..0] == [] && Slot(permissions, GrantKey(gs[0])) == |permissions|;
      assert AddGrants(permissions, gs[..0]) == permissions;
    } else {
      RegroupResources(permissions, p, |p.resources|);
      assert gs[..|gs|] == gs && p.resources[..|p.resources|] == p.resources;
    }
  }

  lemma GroupedPrefix(permissions: seq<Permission>, n: nat)
    requires Grouped(permissions) && n <= |permissions|
    ensures Grouped(permissions[..n])
  {
    assert forall p :: p in permissions[..n] ==> p in permissions;
  }

  /** Adding the grants of grouped permissions one by one gives the same permissions, in the same order. */
  lemma {:induction false} RegroupGrants(permissions: seq<Permission>)
    requires Grouped(permissions)
    ensures AddGrants([], GrantsOf(permissions)) == permissions
  {
    if permissions != [] {
      var n := |permissions| - 1;
      assert permissions == permissions[..n] + [permissions[n]];
      GroupedPrefix(permissions, n);
      RegroupGrants(permissions[..n]);
      AddGrantsAppend([], GrantsOf(permissions[..n]), GrantsOfPermission(permissions[n]));
      RegroupOne(permissions[..n], permissions[n]);
    }
  }

  predicate ColonFreePermission(p: Permission) {
    ColonFree(p.resourceType) && ColonFree(p.action) && forall v :: v in p.resources ==> ColonFree(v)
  }

  predicate ColonFreePermissions(permissions: seq<Permission>) {
    forall p :: p in permissions ==> ColonFreePermission(p)
  }

  lemma {:induction false} GroupingIsColonFree(scopes: seq<string>)
    ensures ColonFreePermissions(Grouping(scopes))
  {
    if scopes != [] {
      GroupingIsColonFree(scopes[..|scopes| - 1]);
      var r := ParseScope(scopes[|scopes| - 1]);
      if r.Some? {
        var rest := Grouping(scopes[..|scopes| - 1]);
        var i := Slot(rest, GrantKey(r.value));
        if i < |rest| {
          assert rest[i] in rest;
          assert forall p :: p in AddGrant(rest, r.value) ==> p in rest || p == Extended(rest[i], r.value);
        }
      }
    }
  }

  /** Grants that a scope can spell. */
  predicate Printable(gs: seq<Grant>) {
    forall g :: g in gs ==> GoodGrant(g) && ColonFreeGrant(g)
  }

  lemma GroupingPrintedLast(gs: seq<Grant>, n: nat)
    requires |gs| == n + 1 && GoodGrant(gs[n]) && ColonFreeGrant(gs[n])
    ensures Grouping(PrintGrants(gs)) == AddGrant(Grouping(PrintGrants(gs[..n])), gs[n])
  {
    ParsePrinted(gs[n]);
    assert PrintGrants(gs)[..n] == PrintGrants(gs[..n]);
  }

  lemma {:induction false} GroupingPrinted(gs: seq<Grant>)
    requires Printable(gs)
    ensures Grouping(PrintGrants(gs)) == AddGrants([], gs)
  {
    if gs != [] {
      var n := |gs| - 1;
      assert gs[n] in gs && forall g :: g in gs[..n] ==> g in gs;
      GroupingPrinted(gs[..n]);
      GroupingPrintedLast(gs, n);
    }
  }

  lemma GrantsAreGood(permissions: seq<Permission>)
    requires forall p :: p in permissions ==> NormalPermission(p)
    ensures forall g :: g in GrantsOf(permissions) ==> GoodGrant(g)
  {
    forall g | g in GrantsOf(permissions) ensures GoodGrant(g) {
      GrantsAreWhatIsPermitted(permissions, g);
    }
  }

  lemma GrantsAreColonFree(permissions: seq<Permission>)
    requires ColonFreePermissions(permissions)
    ensures forall g :: g in GrantsOf(permissions) ==> ColonFreeGrant(g)
  {
    forall g | g in GrantsOf(permissions) ensures ColonFreeGrant(g) {
      GrantsAreWhatIsPermitted(permissions, g);
    }
  }

  lemma DistinctConcat<T(!new)>(a: seq<T>, b: seq<T>)
    requires Distinct(a) && Distinct(b)
    requires forall x :: x in a ==> x !in b
    ensures Distinct(a + b)
  {
    var s := a + b;
    forall i, j | 0 <= i < j < |s| ensures s[i] != s[j] {
      if i < |a| {
        assert s[i] in a;
        assert j < |a| || s[j] in b;
      }
    }
  }

  lemma {:induction false} GrantsAreDistinct(permissions: seq<Permission>)
    requires Grouped(permissions)
    ensures Distinct(GrantsOf(permissions))
  {
    if permissions != [] {
      var n := |permissions| - 1;
      var front, last := GrantsOf(permissions[..n]), GrantsOfPermission(permissions[n]);
      assert permissions[n] in permissions;
      GroupedPrefix(permissions, n);
      GrantsAreDistinct(permissions[..n]);
      forall g | g in front ensures GrantKey(g) != KeyOf(permissions[n]) {
        GrantsAreWhatIsPermitted(permissions[..n], g);
        var p :| p in permissions[..n] && Permits(p, g);
        assert KeyOf(p) == GrantKey(g);
      }
      assert forall g :: g in last ==> GrantKey(g) == KeyOf(permissions[n]);
      DistinctConcat(front, last);
    }
  }

  lemma PrintedGrantsAreNormal(gs: seq<Grant>)
    requires Printable(gs)
    requires Distinct(gs)
    ensures Normal(PrintGrants(gs))
  {
    var printed := PrintGrants(gs);
    forall i | 0 <= i < |gs| ensures printed[i] != "" && Trimmed(printed[i]) && ParseScope(printed[i]) == Some(gs[i]) {
      assert gs[i] in gs;
      PrintedIsTrimmed(gs[i]);
      ParsePrinted(gs[i]);
    }
  }

  /** Permissions that parsing can return: printing them and parsing the scopes gives them back exactly. */
  lemma PrintThenParse(permissions: seq<Permission>)
    requires Grouped(permissions) && ColonFreePermissions(permissions)
    ensures PermissionsOf(ScopesOf(permissions)) == permissions
  {
    var gs := GrantsOf(permissions);
    GroupedIsNormal(permissions);
    GrantsAreGood(permissions);
    GrantsAreColonFree(permissions);
    GrantsAreDistinct(permissions);
    PrintedGrantsAreNormal(gs);
    NormalizeNormal(PrintGrants(gs));
    GroupingPrinted(gs);
    RegroupGrants(permissions);
  }

  lemma ParsedIsGrouped(scopes: seq<string>)
    ensures Grouped(PermissionsOf(scopes)) && ColonFreePermissions(PermissionsOf(scopes))
  {
    GroupingIsGrouped(NormalizeValues(scopes));
    GroupingIsColonFree(NormalizeValues(scopes));
    GroupedIsNormal(Grouping(NormalizeValues(scopes)));
  }

  /** Parsing, printing and parsing again is parsing once, for all inputs and up to every order. */
  lemma ParsePrintParse(scopes: seq<string>)
    ensures PermissionsOf(ScopesOf(PermissionsOf(scopes))) == PermissionsOf(scopes)
  {
    ParsedIsGrouped(scopes);
    PrintThenParse(PermissionsOf(scopes));
  }

  /** Exactly the grouped permissions without colons come back as they were. */
  lemma PrintThenParseIsExactIff(permissions: seq<Permission>)
    ensures PermissionsOf(ScopesOf(permissions)) == permissions
            <==> Grouped(permissions) && ColonFreePermissions(permissions)
  {
    if PermissionsOf(ScopesOf(permissions)) == permissions {
      ParsedIsGrouped(ScopesOf(permissions));
    } else if Grouped(permissions) && ColonFreePermissions(permissions) {
      PrintThenParse(permissions);
    }
  }

  ghost predicate SameAuthority(a: seq<Permission>, b: seq<Permission>) {
    forall g :: g in GrantsOf(a) <==> g in GrantsOf(b)
  }

  lemma ColonFreeGrantsIff(permissions: seq<Permission>)
    requires forall g :: g in GrantsOf(permissions) ==> ColonFreeGrant(g)
    ensures ColonFreePermissions(permissions)
  {
    forall p | p in permissions ensures ColonFreePermission(p) {
      if p.resources == [] {
        GrantsAreWhatIsPermitted(permissions, Grant(p.resourceType, p.action, None));
      } else {
        forall v | v in p.resources
          ensures ColonFree(p.resourceType) && ColonFree(p.action) && ColonFree(v)
        {
          GrantsAreWhatIsPermitted(permissions, Grant(p.resourceType, p.action, Some(v)));
        }
        assert p.resources[0] in p.resources;
      }
    }
  }

  lemma PrintedGrantsGrant(gs: seq<Grant>, g: Grant)
    requires Printable(gs)
    ensures SomeScopeGrants(PrintGrants(gs), g) <==> g in gs
  {
    forall i | 0 <= i < |gs| ensures ParseScope(TrimSpace(PrintGrants(gs)[i])) == Some(gs[i]) {
      assert gs[i] in gs;
      PrintedIsTrimmed(gs[i]);
      ParsePrinted(gs[i]);
    }
    if g in gs {
      var i :| 0 <= i < |gs| && gs[i] == g;
      assert PrintGrants(gs)[i] in PrintGrants(gs);
    }
  }

  /**
   * Printing permissions and parsing the scopes keeps what the normalized permissions grant, neither more nor less,
   * exactly when no part of them holds a colon.
   */
  lemma PrintingKeepsAuthorityIff(permissions: seq<Permission>)
    ensures SameAuthority(PermissionsOf(ScopesOf(permissions)), NormalizePermissions(permissions))
            <==> ColonFreePermissions(NormalizePermissions(permissions))
  {
    var normalized := NormalizePermissions(permissions);
    var read := PermissionsOf(ScopesOf(permissions));
    if SameAuthority(read, normalized) {
      ParsedIsGrouped(ScopesOf(permissions));
      GrantsAreColonFree(read);
      ColonFreeGrantsIff(normalized);
    }
    if ColonFreePermissions(normalized) {
      GrantsAreGood(normalized);
      GrantsAreColonFree(normalized);
      forall g ensures g in GrantsOf(read) <==> g in GrantsOf(normalized) {
        GroupingKeepsAuthority(ScopesOf(permissions), g);
        NormalizingKeepsAuthority(PrintGrants(GrantsOf(normalized)), g);
        PrintedGrantsGrant(GrantsOf(normalized), g);
      }
    }
  }

  lemma GrantsOfOne(p: Permission)
    ensures GrantsOf([p]) == GrantsOfPermission(p)
  {
    assert [p][..0] == [];
  }

  lemma OneIsNormal(value: string)
    requires value != "" && Trimmed(value)
    ensures NormalizeValues([value]) == [value]
  {
    NormalizeNormal([value]);
  }

  lemma OnePermissionIsNormal(p: Permission)
    requires NormalPermission(p)
    ensures NormalizePermissions([p]) == [p]
  {
    NormalizeNormalPermissions([p]);
  }

  lemma PrintOne(p: Permission, g: Grant)
    requires NormalPermission(p) && GoodGrant(g) && GrantsOfPermission(p) == [g]
    ensures ScopesOf([p]) == [PrintGrant(g)]
  {
    OnePermissionIsNormal(p);
    GrantsOfOne(p);
    PrintedIsTrimmed(g);
    OneIsNormal(PrintGrant(g));
    assert PrintGrants([g]) == [PrintGrant(g)];
  }

  lemma StartedIsParsed(g: Grant)
    requires GoodGrant(g) && ColonFreeGrant(g)
    ensures Grouped([Started(g)]) && ColonFreePermissions([Started(g)])
  {
    assert ColonFreePermission(Started(g));
  }

  /** A single permission that prints as the scope of another grant is read back as that other grant. */
  lemma OnePermissionReadsAs(p: Permission, g: Grant)
    requires NormalPermission(p) && p.resources == [] && PrintGrant(Grant(p.resourceType, p.action, None)) == PrintGrant(g)
    requires GoodGrant(g) && ColonFreeGrant(g)
    ensures PermissionsOf(ScopesOf([p])) == [Started(g)]
  {
    PrintOne(p, Grant(p.resourceType, p.action, None));
    PrintOne(Started(g), g);
    StartedIsParsed(g);
    PrintThenParse([Started(g)]);
  }

  /** A colon inside a type moves the boundary: an action on all of `a:b` is read as the action `b` on one resource. */
  lemma ColonMovesAuthority(a: string, b: string, c: string)
    requires GoodGrant(Grant(a, b, Some(c))) && ColonFreeGrant(Grant(a, b, Some(c)))
    ensures PermissionsOf(ScopesOf([Permission(a + ":" + b, c, [])])) == [Permission(a, b, [c])]
  {
    OnePermissionReadsAs(Permission(a + ":" + b, c, []), Grant(a, b, Some(c)));
  }
}
