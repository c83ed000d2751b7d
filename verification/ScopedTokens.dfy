/** Deciding whether a scoped token permits a call. */
module ScopedTokens {
  import opened Text
  import opened Options
  import opened Scopes

  /** The scopes claim of a token: absent, not a list of strings, or a list of scopes. */
  datatype ScopesClaim = NoScopes | Undecodable | ScopeList(scopes: seq<string>)

  datatype Rule = Rule(resource: string, actions: seq<string>, resourcePathParams: seq<string>)

  function ParamValue(pathParams: map<string, string>, key: string): string {
    TrimSpace(if key in pathParams then pathParams[key] else "")
  }

  /** The value of the first path parameter that is not blank. */
  ghost predicate NamedResource(pathParams: map<string, string>, keys: seq<string>, value: string) {
    && value != ""
    && exists i :: && 0 <= i < |keys| && value == ParamValue(pathParams, keys[i])
                   && forall j :: 0 <= j < i ==> ParamValue(pathParams, keys[j]) == ""
  }

  lemma ParamValueIs(pathParams: map<string, string>, key: string)
    ensures ParamValue(pathParams, key) == if key in pathParams then TrimSpace(pathParams[key]) else ""
    ensures ParamValue(pathParams, key) == "" <==> (key in pathParams ==> AllSpaces(pathParams[key]))
  {
    if key in pathParams {
      BlankIff(pathParams[key]);
    }
  }

  /** A path names a resource by the first of the keys whose value is there and not blank, and without the spaces around it. */
  lemma NamedResourceIff(pathParams: map<string, string>, keys: seq<string>, value: string)
    ensures NamedResource(pathParams, keys, value) <==>
      exists i :: && 0 <= i < |keys| && keys[i] in pathParams
                  && !AllSpaces(pathParams[keys[i]]) && value == TrimSpace(pathParams[keys[i]])
                  && forall j :: 0 <= j < i && keys[j] in pathParams ==> AllSpaces(pathParams[keys[j]])
  {
    forall i | 0 <= i < |keys|
      ensures ParamValue(pathParams, keys[i]) == if keys[i] in pathParams then TrimSpace(pathParams[keys[i]]) else ""
      ensures ParamValue(pathParams, keys[i]) == "" <==> (keys[i] in pathParams ==> AllSpaces(pathParams[keys[i]]))
    {
      ParamValueIs(pathParams, keys[i]);
    }
  }

  method ResourceIDsFromPathParams(pathParams: map<string, string>, keys: seq<string>) returns (resourceIDs: seq<string>)
    ensures |resourceIDs| <= 1
    ensures forall v :: v in resourceIDs <==> NamedResource(pathParams, keys, v)
  {
    if |pathParams| == 0 || |keys| == 0 {
      assert forall key :: ParamValue(pathParams, key) == "" || |keys| == 0;
      return [];
    }
    for i := 0 to |keys|
      invariant forall j :: 0 <= j < i ==> ParamValue(pathParams, keys[j]) == ""
    {
      var value := TrimSpace(if keys[i] in pathParams then pathParams[keys[i]] else "");
      if value != "" {
        return [value];
      }
    }
    return [];
  }

  /** The grant covers the rule for the resource that the path names. */
  ghost predicate Covers(g: Grant, pathParams: map<string, string>, rule: Rule) {
    && g.resourceType == rule.resource && g.action in rule.actions
    && (g.resource.None? || NamedResource(pathParams, rule.resourcePathParams, g.resource.value))
  }

  /** Some single well-formed scope of the list covers the rule. */
  ghost predicate SomeScopeCovers(scopes: seq<string>, pathParams: map<string, string>, rule: Rule) {
    exists x, g :: x in scopes && ParseScope(TrimSpace(x)) == Some(g) && Covers(g, pathParams, rule)
  }

  lemma CoversByMeaning(scopes: seq<string>, pathParams: map<string, string>, rule: Rule)
    ensures SomeScopeCovers(scopes, pathParams, rule)
            <==> exists x, g :: && x in scopes && Means(TrimSpace(x), g)
                                && g.resourceType == rule.resource && g.action in rule.actions
                                && (g.resource.None? || NamedResource(pathParams, rule.resourcePathParams, g.resource.value))
  {
    if x, g :| x in scopes && ParseScope(TrimSpace(x)) == Some(g) && Covers(g, pathParams, rule) {
      ParseScopeIff(TrimSpace(x), g);
    }
    if x, g :| && x in scopes && Means(TrimSpace(x), g)
               && g.resourceType == rule.resource && g.action in rule.actions
               && (g.resource.None? || NamedResource(pathParams, rule.resourcePathParams, g.resource.value)) {
      ParseScopeIff(TrimSpace(x), g);
      assert Covers(g, pathParams, rule);
    }
  }

  ghost predicate PermissionCovers(p: Permission, pathParams: map<string, string>, rule: Rule) {
    exists g :: Permits(p, g) && Covers(g, pathParams, rule)
  }

  lemma CoveredByPermissionIffByScope(scopes: seq<string>, pathParams: map<string, string>, rule: Rule)
    ensures SomeScopeCovers(scopes, pathParams, rule)
            <==> exists p :: p in PermissionsOf(scopes) && PermissionCovers(p, pathParams, rule)
  {
    if SomeScopeCovers(scopes, pathParams, rule) {
      var x, g :| x in scopes && ParseScope(TrimSpace(x)) == Some(g) && Covers(g, pathParams, rule);
      GroupingKeepsAuthority(scopes, g);
      GrantsAreWhatIsPermitted(PermissionsOf(scopes), g);
    }
    if p :| p in PermissionsOf(scopes) && PermissionCovers(p, pathParams, rule) {
      var g :| Permits(p, g) && Covers(g, pathParams, rule);
      GrantsAreWhatIsPermitted(PermissionsOf(scopes), g);
      GroupingKeepsAuthority(scopes, g);
    }
  }

  lemma PermissionCoversIff(p: Permission, pathParams: map<string, string>, rule: Rule)
    ensures PermissionCovers(p, pathParams, rule)
            <==> p.resourceType == rule.resource && p.action in rule.actions
                 && (p.resources == [] || exists v :: v in p.resources && NamedResource(pathParams, rule.resourcePathParams, v))
  {
    if p.resources == [] {
      assert Permits(p, Grant(p.resourceType, p.action, None));
    } else if v :| v in p.resources && NamedResource(pathParams, rule.resourcePathParams, v) {
      assert Permits(p, Grant(p.resourceType, p.action, Some(v)));
    }
  }

  method ContainsAny(resources: seq<string>, resourceIDs: seq<string>) returns (found: bool)
    ensures found <==> exists v :: v in resourceIDs && v in resources
  {
    for k := 0 to |resourceIDs|
      invariant forall m :: 0 <= m < k ==> resourceIDs[m] !in resources
    {
      if resourceIDs[k] in resources {
        return true;
      }
    }
    return false;
  }

  method CheckPermission(permission: Permission, pathParams: map<string, string>, rule: Rule) returns (granted: bool)
    ensures granted <==> PermissionCovers(permission, pathParams, rule)
  {
    PermissionCoversIff(permission, pathParams, rule);
    if permission.resourceType != rule.resource || permission.action !in rule.actions {
      return false;
    }
    if |permission.resources| == 0 {
      return true;
    }
    var resourceIDs := ResourceIDsFromPathParams(pathParams, rule.resourcePathParams);
    granted := ContainsAny(permission.resources, resourceIDs);
  }

  /** The decision for a call: no scopes claim permits it, and a claim permits it exactly when some scope covers it. */
  method HasRequiredScopedTokenPermission(claim: ScopesClaim, pathParams: map<string, string>, rule: Rule)
    returns (granted: bool)
    ensures granted
            <==> || claim.NoScopes?
                 || (claim.ScopeList? && exists x, g ::
                       && x in claim.scopes && Means(TrimSpace(x), g)
                       && g.resourceType == rule.resource && g.action in rule.actions
                       && (g.resource.None? || NamedResource(pathParams, rule.resourcePathParams, g.resource.value)))
  {
    if claim.ScopeList? {
      CoversByMeaning(claim.scopes, pathParams, rule);
    }
    if claim.NoScopes? {
      return true;
    }
    if claim.Undecodable? {
      return false;
    }
    CoveredByPermissionIffByScope(claim.scopes, pathParams, rule);
    var permissions := PermissionsFromScopes(claim.scopes);
    for i := 0 to |permissions|
      invariant forall p :: p in permissions[..i] ==> !PermissionCovers(p, pathParams, rule)
    {
      PrefixGrows(permissions, i);
      var covers := CheckPermission(permissions[i], pathParams, rule);
      if covers {
        return true;
      }
    }
    assert permissions[..|permissions|] == permissions;
    return false;
  }
}
