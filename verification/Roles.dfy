/** The permissions of a default role: what it and the roles it inherits are given by the policy templates. */
module Roles {
  import opened Reachability
  import opened Text

  /** A template row: `g, role, inherited role` or `p, role, domain, resource, action`. */
  datatype Template = Template(kind: string, role: string, third: string, resource: string, action: string)
  datatype Permission = Permission(resource: string, action: string)

  const ROLE_PREFIX := "/roles/"

  function PrefixRoleName(name: string): string {
    ROLE_PREFIX + name
  }

  ghost function Inherits(templates: seq<Template>): Relation {
    set t | t in templates && t.kind == "g" :: (t.role, t.third)
  }

  /** What the templates give to a role or to any role that it inherits, over any number of steps. */
  ghost function Granted(templates: seq<Template>, role: string): set<Permission> {
    set t | t in templates && t.kind == "p" && Reaches(Inherits(templates), role, t.role) :: Permission(t.resource, t.action)
  }

  /** Rows that lead from a role to another: each of kind `g` names the role that it is for, and then one that it inherits. */
  ghost predicate RowsLead(templates: seq<Template>, rows: seq<Template>, role: string, last: string) {
    if rows == [] then role == last
    else && rows[0] in templates && rows[0].kind == "g" && rows[0].role == role
         && RowsLead(templates, rows[1..], rows[0].third, last)
  }

  lemma {:induction false} PathFromRows(templates: seq<Template>, rows: seq<Template>, role: string, last: string)
    requires RowsLead(templates, rows, role, last)
    ensures Reaches(Inherits(templates), role, last)
    decreases |rows|
  {
    var r := Inherits(templates);
    if rows == [] {
      ReachesSelf(r, role);
    } else {
      PathFromRows(templates, rows[1..], rows[0].third, last);
      assert (rows[0].role, rows[0].third) in r;
      ReachesStep(r, role, rows[0].third);
      ReachesTransitive(r, role, rows[0].third, last);
    }
  }

  lemma {:induction false} RowsFromPath(templates: seq<Template>, path: seq<string>) returns (rows: seq<Template>)
    requires IsPath(Inherits(templates), path)
    ensures RowsLead(templates, rows, path[0], path[|path| - 1])
    decreases |path|
  {
    rows := [];
    if |path| > 1 {
      assert (path[0], path[0 + 1]) in Inherits(templates);
      var t :| t in templates && t.kind == "g" && (t.role, t.third) == (path[0], path[1]);
      forall i | 0 <= i < |path[1..]| - 1 ensures (path[1..][i], path[1..][i + 1]) in Inherits(templates) {
        assert (path[i + 1], path[i + 1 + 1]) in Inherits(templates);
      }
      var later := RowsFromPath(templates, path[1..]);
      rows := [t] + later;
      assert rows[1..] == later;
    }
  }

  ghost predicate GivenBy(templates: seq<Template>, role: string, p: Permission, t: Template, rows: seq<Template>) {
    && t in templates && t.kind == "p" && p == Permission(t.resource, t.action)
    && RowsLead(templates, rows, role, t.role)
  }

  /** A role is granted what `p` rows give to it or to a role to which `g` rows lead from it, and nothing else. */
  lemma GrantedIff(templates: seq<Template>, role: string, p: Permission)
    ensures p in Granted(templates, role) <==> exists t, rows :: GivenBy(templates, role, p, t, rows)
  {
    var r := Inherits(templates);
    if p in Granted(templates, role) {
      var t :| t in templates && t.kind == "p" && Reaches(r, role, t.role) && p == Permission(t.resource, t.action);
      var path :| PathBetween(r, path, role, t.role);
      var rows := RowsFromPath(templates, path);
      assert GivenBy(templates, role, p, t, rows);
    }
    if t, rows :| GivenBy(templates, role, p, t, rows) {
      PathFromRows(templates, rows, role, t.role);
    }
  }

  function PermissionKey(p: Permission): string {
    p.resource + ":" + p.action
  }

  // ----- the roles -----

  /** Roles found so far can be reached, and what a role that is no longer in the queue inherits is found. */
  ghost predicate Closing(r: Relation, start: string, found: set<string>, queue: seq<string>) {
    && start in found
    && (forall x :: x in found ==> Reaches(r, start, x))
    && (forall x :: x in queue ==> x in found)
    && (forall a, b :: (a, b) in r && a in found && a !in queue ==> b in found)
  }

  /** The same while the templates of one role are being looked at. */
  ghost predicate ClosingOne(
      r: Relation, start: string, found: set<string>, queue: seq<string>, current: string, seen: set<string>) {
    && start in found && current in found
    && (forall x :: x in found ==> Reaches(r, start, x))
    && (forall x :: x in queue ==> x in found)
    && (forall a, b :: (a, b) in r && a in found && a !in queue && a != current ==> b in found)
    && seen <= found
  }

  lemma Found(r: Relation, start: string, found: set<string>, queue: seq<string>, current: string, seen: set<string>, b: string)
    requires ClosingOne(r, start, found, queue, current, seen) && (current, b) in r
    ensures ClosingOne(r, start, found + {b}, queue + [b], current, seen + {b})
  {
    ReachesExtend(r, start, current, b);
  }

  ghost function Unfound(r: Relation, found: set<string>): nat {
    |(set arc | arc in r :: arc.1) - found|
  }

  lemma FindingShrinks(r: Relation, found: set<string>, a: string, b: string)
    requires (a, b) in r && b !in found
    ensures Unfound(r, found + {b}) < Unfound(r, found)
  {
    var targets := set arc | arc in r :: arc.1;
    assert (a, b).1 in targets;
    assert targets - (found + {b}) == (targets - found) - {b};
  }

  lemma ClosingEnds(r: Relation, start: string, found: set<string>)
    requires Closing(r, start, found, [])
    ensures forall x :: x in found <==> Reaches(r, start, x)
  {
    forall x | Reaches(r, start, x) ensures x in found {
      ClosedStays(r, found, start, x);
    }
  }

  /** The inherited roles of one role, as far as the templates have been looked at. */
  ghost function InheritedBy(templates: seq<Template>, role: string): set<string> {
    set t | t in templates && t.kind == "g" && t.role == role :: t.third
  }

  lemma OneMoreTemplate(templates: seq<Template>, i: nat, role: string)
    requires i < |templates|
    ensures InheritedBy(templates[..i + 1], role)
            == InheritedBy(templates[..i], role)
               + if templates[i].kind == "g" && templates[i].role == role then {templates[i].third} else {}
  {
    assert templates[..i + 1] == templates[..i] + [templates[i]];
  }

  lemma InheritedIsRelated(templates: seq<Template>, role: string, b: string)
    ensures b in InheritedBy(templates, role) <==> (role, b) in Inherits(templates)
  {
  }

  lemma DoneWithOne(templates: seq<Template>, start: string, found: set<string>, queue: seq<string>, current: string)
    requires ClosingOne(Inherits(templates), start, found, queue, current, InheritedBy(templates, current))
    ensures Closing(Inherits(templates), start, found, queue)
  {
    forall b | (current, b) in Inherits(templates) ensures b in found {
      InheritedIsRelated(templates, current, b);
    }
  }

  lemma StartOne(r: Relation, start: string, found: set<string>, queue: seq<string>)
    requires Closing(r, start, found, queue) && queue != []
    ensures ClosingOne(r, start, found, queue[1..], queue[0], {})
  {
    assert queue == [queue[0]] + queue[1..];
    assert forall x :: x in queue ==> x == queue[0] || x in queue[1..];
  }

  /** Puts what a role inherits and has not been found yet into the queue. */
  method ExpandRole(templates: seq<Template>, start: string, found: set<string>, queue: seq<string>)
    returns (foundNow: set<string>, queueNow: seq<string>)
    requires Closing(Inherits(templates), start, found, queue) && queue != []
    ensures Closing(Inherits(templates), start, foundNow, queueNow)
    ensures Unfound(Inherits(templates), foundNow) <= Unfound(Inherits(templates), found)
    ensures Unfound(Inherits(templates), foundNow) == Unfound(Inherits(templates), found) ==> |queueNow| < |queue|
  {
    ghost var r := Inherits(templates);
    var current := queue[0];
    foundNow, queueNow := found, queue[1..];
    StartOne(r, start, found, queue);
    for i := 0 to |templates|
      invariant ClosingOne(r, start, foundNow, queueNow, current, InheritedBy(templates[..i], current))
      invariant Unfound(r, foundNow) <= Unfound(r, found)
      invariant Unfound(r, foundNow) == Unfound(r, found) ==> queueNow == queue[1..]
    {
      OneMoreTemplate(templates, i, current);
      var policy := templates[i];
      if policy.kind != "g" || policy.role != current || policy.third in foundNow {
        continue;
      }
      Found(r, start, foundNow, queueNow, current, InheritedBy(templates[..i], current), policy.third);
      FindingShrinks(r, foundNow, current, policy.third);
      foundNow := foundNow + {policy.third};
      queueNow := queueNow + [policy.third];
    }
    assert templates[..|templates|] == templates;
    DoneWithOne(templates, start, foundNow, queueNow, current);
  }

  /** The role and everything it inherits, through any number of roles; cycles among the templates do no harm. */
  method ResolveRoles(templates: seq<Template>, role: string) returns (roles: set<string>)
    ensures forall x :: x in roles <==> Reaches(Inherits(templates), role, x)
  {
    roles := {role};
    var queue := [role];
    ReachesSelf(Inherits(templates), role);
    while |queue| > 0
      invariant Closing(Inherits(templates), role, roles, queue)
      decreases Unfound(Inherits(templates), roles), |queue|
    {
      roles, queue := ExpandRole(templates, role, roles, queue);
    }
    ClosingEnds(Inherits(templates), role, roles);
  }

  // ----- the permissions -----

  /** Every key belongs to its permission, and every granted permission has its key. */
  ghost predicate Keyed(permissions: map<string, Permission>, granted: set<Permission>) {
    && (forall k :: k in permissions ==> permissions[k] in granted && PermissionKey(permissions[k]) == k)
    && (forall p :: p in granted ==> PermissionKey(p) in permissions)
  }

  ghost predicate DistinctPermissionKeys(granted: set<Permission>) {
    forall p, q :: p in granted && q in granted && PermissionKey(p) == PermissionKey(q) ==> p == q
  }

  /** Of the granted permissions with one key, one. */
  ghost predicate OnePerKey(permissions: set<Permission>, granted: set<Permission>) {
    && permissions <= granted && DistinctPermissionKeys(permissions)
    && (forall p :: p in granted ==> exists q :: q in permissions && PermissionKey(q) == PermissionKey(p))
  }

  predicate Gives(t: Template, roles: set<string>) {
    t.kind == "p" && t.role in roles
  }

  /** A row that gives a permission to one of the roles, and behind which no other gives one with the same key. */
  ghost predicate LastWithKey(templates: seq<Template>, roles: set<string>, n: nat, i: nat, p: Permission)
    requires n <= |templates|
  {
    && i < n && Gives(templates[i], roles) && p == Permission(templates[i].resource, templates[i].action)
    && forall j :: i < j < n && Gives(templates[j], roles) ==>
         templates[j].resource + ":" + templates[j].action != p.resource + ":" + p.action
  }

  ghost predicate FromLastRow(templates: seq<Template>, roles: set<string>, n: nat, p: Permission)
    requires n <= |templates|
  {
    exists i :: LastWithKey(templates, roles, n, i, p)
  }

  ghost predicate FromLastRows(templates: seq<Template>, roles: set<string>, n: nat, permissions: map<string, Permission>)
    requires n <= |templates|
  {
    forall k :: k in permissions ==>
      permissions[k].resource + ":" + permissions[k].action == k && FromLastRow(templates, roles, n, permissions[k])
  }

  lemma NoRowMore(templates: seq<Template>, roles: set<string>, n: nat, permissions: map<string, Permission>)
    requires n < |templates| && FromLastRows(templates, roles, n, permissions) && !Gives(templates[n], roles)
    ensures FromLastRows(templates, roles, n + 1, permissions)
  {
    forall k | k in permissions ensures FromLastRow(templates, roles, n + 1, permissions[k]) {
      var i :| LastWithKey(templates, roles, n, i, permissions[k]);
      assert LastWithKey(templates, roles, n + 1, i, permissions[k]);
    }
  }

  lemma OneRowMore(templates: seq<Template>, roles: set<string>, n: nat, permissions: map<string, Permission>, p: Permission)
    requires n < |templates| && FromLastRows(templates, roles, n, permissions) && Gives(templates[n], roles)
    requires p == Permission(templates[n].resource, templates[n].action)
    ensures FromLastRows(templates, roles, n + 1, permissions[PermissionKey(p) := p])
  {
    assert LastWithKey(templates, roles, n + 1, n, p);
    forall k | k in permissions && k != PermissionKey(p) ensures FromLastRow(templates, roles, n + 1, permissions[k]) {
      var i :| LastWithKey(templates, roles, n, i, permissions[k]);
      assert LastWithKey(templates, roles, n + 1, i, permissions[k]);
    }
  }

  lemma KeyedValuesIff(permissions: map<string, Permission>, granted: set<Permission>)
    requires Keyed(permissions, granted)
    ensures OnePerKey(permissions.Values, granted)
    ensures permissions.Values == granted <==> DistinctPermissionKeys(granted)
  {
    forall p | p in granted ensures exists q :: q in permissions.Values && PermissionKey(q) == PermissionKey(p) {
      assert permissions[PermissionKey(p)] in permissions.Values;
    }
    if permissions.Values == granted {
      forall p, q | p in granted && q in granted && PermissionKey(p) == PermissionKey(q) ensures p == q {
        var k :| k in permissions && permissions[k] == p;
        var m :| m in permissions && permissions[m] == q;
      }
    }
    if DistinctPermissionKeys(granted) {
      forall p | p in granted ensures p in permissions.Values {
        assert permissions[PermissionKey(p)] == p;
      }
    }
  }

  ghost function GrantedTo(templates: seq<Template>, roles: set<string>): set<Permission> {
    set t | t in templates && t.kind == "p" && t.role in roles :: Permission(t.resource, t.action)
  }

  lemma OneMoreGrant(templates: seq<Template>, i: nat, roles: set<string>)
    requires i < |templates|
    ensures GrantedTo(templates[..i + 1], roles)
            == GrantedTo(templates[..i], roles)
               + if templates[i].kind == "p" && templates[i].role in roles
                 then {Permission(templates[i].resource, templates[i].action)} else {}
  {
    assert templates[..i + 1] == templates[..i] + [templates[i]];
  }

  /** One permission for each key that the rows give to the roles: that of the last row with the key. */
  method CollectPermissions(templates: seq<Template>, roles: set<string>) returns (permissionSet: map<string, Permission>)
    ensures Keyed(permissionSet, GrantedTo(templates, roles))
    ensures FromLastRows(templates, roles, |templates|, permissionSet)
  {
    permissionSet := map[];
    for i := 0 to |templates|
      invariant Keyed(permissionSet, GrantedTo(templates[..i], roles))
      invariant FromLastRows(templates, roles, i, permissionSet)
    {
      OneMoreGrant(templates, i, roles);
      var policy := templates[i];
      if policy.kind != "p" || policy.role !in roles {
        NoRowMore(templates, roles, i, permissionSet);
        continue;
      }
      var p := Permission(policy.resource, policy.action);
      OneRowMore(templates, roles, i, permissionSet, p);
      permissionSet := permissionSet[PermissionKey(p) := p];
    }
    assert templates[..|templates|] == templates;
  }

  /** A row gives the permission to the role or to one that it inherits, and no row behind it gives one with the same key. */
  ghost predicate LastGiven(templates: seq<Template>, role: string, i: nat, p: Permission) {
    && i < |templates| && templates[i].kind == "p" && Reaches(Inherits(templates), role, templates[i].role)
    && p == Permission(templates[i].resource, templates[i].action)
    && forall j :: i < j < |templates| && templates[j].kind == "p" && Reaches(Inherits(templates), role, templates[j].role) ==>
         templates[j].resource + ":" + templates[j].action != p.resource + ":" + p.action
  }

  lemma LastIsLastGiven(templates: seq<Template>, role: string, roles: set<string>, permissions: map<string, Permission>)
    requires forall x :: x in roles <==> Reaches(Inherits(templates), role, x)
    requires FromLastRows(templates, roles, |templates|, permissions)
    ensures forall p :: p in permissions.Values ==> exists i :: LastGiven(templates, role, i, p)
  {
    forall p | p in permissions.Values ensures exists i :: LastGiven(templates, role, i, p) {
      var i :| LastWithKey(templates, roles, |templates|, i, p);
      assert LastGiven(templates, role, i, p);
    }
  }

  /**
   * The permissions of a default role. One is returned for each key `resource:action`, that of the last row with the key,
   * so all that the closure of the role is given exactly when no two of them share their key.
   */
  method GetDefaultRolePermissions(templates: seq<Template>, roleName: string) returns (permissions: set<Permission>)
    ensures OnePerKey(permissions, Granted(templates, PrefixRoleName(roleName)))
    ensures permissions == Granted(templates, PrefixRoleName(roleName))
            <==> DistinctPermissionKeys(Granted(templates, PrefixRoleName(roleName)))
    ensures forall p :: p in permissions ==> exists i :: LastGiven(templates, "/roles/" + roleName, i, p)
  {
    var roles := ResolveRoles(templates, PrefixRoleName(roleName));
    var permissionSet := CollectPermissions(templates, roles);
    ClosureIsGranted(templates, PrefixRoleName(roleName), roles);
    KeyedValuesIff(permissionSet, GrantedTo(templates, roles));
    LastIsLastGiven(templates, PrefixRoleName(roleName), roles, permissionSet);
    permissions := permissionSet.Values;
  }

  lemma ClosureIsGranted(templates: seq<Template>, role: string, roles: set<string>)
    requires forall x :: x in roles <==> Reaches(Inherits(templates), role, x)
    ensures GrantedTo(templates, roles) == Granted(templates, role)
  {
  }

  // ----- inheritance -----

  /** A role has every permission of any role it inherits, and inheriting each other makes roles equal. */
  lemma InheritedPermissionsAreGranted(templates: seq<Template>, role: string, inherited: string)
    requires Reaches(Inherits(templates), role, inherited)
    ensures Granted(templates, inherited) <= Granted(templates, role)
    ensures Reaches(Inherits(templates), inherited, role) ==> Granted(templates, inherited) == Granted(templates, role)
  {
    var r := Inherits(templates);
    forall x | Reaches(r, inherited, x) ensures Reaches(r, role, x) {
      ReachesTransitive(r, role, inherited, x);
    }
    if Reaches(r, inherited, role) {
      forall x | Reaches(r, role, x) ensures Reaches(r, inherited, x) {
        ReachesTransitive(r, inherited, role, x);
      }
    }
  }

  /** What is returned for a role has all keys of what is returned for a role that it inherits, and all of its permissions
      when no two of the role's share their key. */
  lemma InheritedPermissionsAreReturned(
      templates: seq<Template>, role: string, inherited: string, mine: set<Permission>, theirs: set<Permission>)
    requires Reaches(Inherits(templates), role, inherited)
    requires OnePerKey(mine, Granted(templates, role)) && OnePerKey(theirs, Granted(templates, inherited))
    ensures forall p :: p in theirs ==> exists q :: q in mine && PermissionKey(q) == PermissionKey(p)
    ensures DistinctPermissionKeys(Granted(templates, role)) ==> theirs <= mine
  {
    InheritedPermissionsAreGranted(templates, role, inherited);
  }

  /** Two templates that give a role permissions with one key. */
  function SharingKey(role: string, a: string, b: string, c: string): seq<Template> {
    [Template("p", role, "", a + ":" + b, c), Template("p", role, "", a, b + ":" + c)]
  }

  lemma BothGranted(role: string, a: string, b: string, c: string)
    ensures Granted(SharingKey(role, a, b, c), role) == {Permission(a + ":" + b, c), Permission(a, b + ":" + c)}
  {
    var templates := SharingKey(role, a, b, c);
    ReachesSelf(Inherits(templates), role);
    assert templates[0] in templates && templates[1] in templates;
  }

  /** Of the two permissions one is returned only. */
  lemma SharedKeyDropsPermission(role: string, a: string, b: string, c: string, permissions: set<Permission>)
    requires OnePerKey(permissions, Granted(SharingKey(role, a, b, c), role))
    ensures permissions == {Permission(a + ":" + b, c)} || permissions == {Permission(a, b + ":" + c)}
    ensures permissions != Granted(SharingKey(role, a, b, c), role)
  {
    var first, second := Permission(a + ":" + b, c), Permission(a, b + ":" + c);
    BothGranted(role, a, b, c);
    assert PermissionKey(first) == PermissionKey(second) by {
      assert a + ":" + b + ":" + c == a + ":" + (b + ":" + c);
    }
    assert first != second by {
      assert |first.resource| != |second.resource|;
    }
    assert !(first in permissions && second in permissions);
    assert first in {first, second};
  }

  /** Without colons in resources no two permissions share their key. */
  lemma ColonFreeResourcesHaveDistinctKeys(granted: set<Permission>)
    requires forall p :: p in granted ==> ColonFree(p.resource)
    ensures DistinctPermissionKeys(granted)
  {
    forall p, q | p in granted && q in granted && PermissionKey(p) == PermissionKey(q) ensures p == q {
      FirstColon(p.resource, p.action, q.resource, q.action);
    }
  }

  lemma FirstColon(a: string, rest: string, a': string, rest': string)
    requires ColonFree(a) && ColonFree(a') && a + ":" + rest == a' + ":" + rest'
    ensures a == a' && rest == rest'
  {
    SplitAtColon(a, rest);
    SplitAtColon(a', rest');
    assert a == Split(a + ":" + rest)[0] == a';
    assert rest == (a + ":" + rest)[|a| + 1..] && rest' == (a' + ":" + rest')[|a| + 1..];
  }
}
