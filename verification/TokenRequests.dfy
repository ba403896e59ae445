/**
 Creating and updating tokens: whether the token in use may hand out the requested one.
 */
module TokenRequests {
  import opened Wrappers
  import opened TokenPermissions

  /** The token that is evaluated for the request: unspecified roles are dropped, the user is the current one. */
  function AsRequested(current: Token, requested: Token): Token {
    Token(current.user, false, requested.projectRoles, requested.tenantRoles,
          if requested.adminRole == Some(AdminUnspecified) then None else requested.adminRole,
          if requested.infraRole == Some(Unspecified) then None else requested.infraRole,
          requested.machineRoles, requested.permissions)
  }

  /** Roles may be requested for the subjects the current token has roles for, or for any with "*". */
  predicate RolesRequestable(requested: Roles, current: Roles) {
    requested.Keys <= current.Keys || ANY in current
  }

  predicate MethodsKnown(sv: Services, ps: seq<MethodPermission>) {
    forall p, m | p in ps && m in p.methods :: m in sv.methods
  }

  /** One method of the request against the current permissions. */
  predicate MethodCovered(current: Permissions, m: string, subjects: set<string>) {
    m in current && (ANY in current[m] || ANY in subjects || subjects <= current[m])
  }

  /** The checks of a request, for the token as the evaluation left it. */
  ghost predicate Acceptable(sv: Services, pat: Memberships, current: Token, requested: Token) {
    var seen := if current.user == "" then current else AsEvaluated(current, pat);
    var mine := Evaluated(sv, pat, Some(current));
    var asked := Evaluated(sv, pat, Some(AsRequested(current, requested)));
    && mine.Ok?
    && RolesRequestable(requested.tenantRoles, seen.tenantRoles)
    && Unspecified !in requested.tenantRoles.Values
    && RolesRequestable(requested.projectRoles, seen.projectRoles)
    && Unspecified !in requested.projectRoles.Values
    && MethodsKnown(sv, requested.permissions)
    && RolesRequestable(requested.machineRoles, seen.machineRoles)
    && asked.Ok?
    && forall m | m in asked.value :: MethodCovered(mine.value, m, asked.value[m])
  }

  method CheckSpecified(roles: Roles) returns (ok: bool)
    ensures ok <==> Unspecified !in roles.Values
  {
    var todo := roles.Keys;
    while todo != {}
      invariant todo <= roles.Keys
      invariant forall s | s in roles && s !in todo :: roles[s] != Unspecified
      decreases todo
    {
      var s :| s in todo;
      if roles[s] == Unspecified {
        return false;
      }
      todo := todo - {s};
    }
    ok := true;
  }

  method CheckMethods(sv: Services, ps: seq<MethodPermission>) returns (ok: bool)
    ensures ok <==> MethodsKnown(sv, ps)
  {
    for i := 0 to |ps|
      invariant forall k, m | 0 <= k < i && m in ps[k].methods :: m in sv.methods
    {
      for j := 0 to |ps[i].methods|
        invariant forall k | 0 <= k < j :: ps[i].methods[k] in sv.methods
      {
        if ps[i].methods[j] !in sv.methods {
          assert ps[i] in ps && ps[i].methods[j] in ps[i].methods;
          return false;
        }
      }
    }
    ok := true;
  }

  method CheckSubjects(current: Permissions, asked: Permissions) returns (error: Option<TokenError>)
    ensures error.None? <==> forall m | m in asked :: MethodCovered(current, m, asked[m])
  {
    var todo := asked.Keys;
    while todo != {}
      invariant todo <= asked.Keys
      invariant forall m | m in asked && m !in todo :: MethodCovered(current, m, asked[m])
      decreases todo
    {
      var m :| m in todo;
      todo := todo - {m};
      if m !in current {
        assert !MethodCovered(current, m, asked[m]);
        return Some(MethodNotAllowed);
      }
      if !(ANY in current[m] || ANY in asked[m]) {
        var subjects := asked[m];
        while subjects != {}
          invariant subjects <= asked[m]
          invariant asked[m] - subjects <= current[m]
          decreases subjects
        {
          var s :| s in subjects;
          if s !in current[m] {
            assert !MethodCovered(current, m, asked[m]);
            return Some(SubjectNotAllowed);
          }
          subjects := subjects - {s};
        }
        assert asked[m] - subjects == asked[m];
      }
    }
    error := None;
  }

  method ValidateTokenRequest(sv: Services, pat: Memberships, current: Token, requested: Token)
    returns (error: Option<TokenError>)
    ensures error.None? <==> Acceptable(sv, pat, current, requested)
  {
    var mine, after := GetTokenPermissions(sv, pat, Some(current));
    if mine.Err? {
      return Some(mine.error);
    }
    var seen := after.value;
    if !RolesRequestable(requested.tenantRoles, seen.tenantRoles) {
      return Some(TenantsForbidden);
    }
    var tenantsSpecified := CheckSpecified(requested.tenantRoles);
    if !tenantsSpecified {
      return Some(TenantRoleUnspecified);
    }
    if !RolesRequestable(requested.projectRoles, seen.projectRoles) {
      return Some(ProjectsForbidden);
    }
    var projectsSpecified := CheckSpecified(requested.projectRoles);
    if !projectsSpecified {
      return Some(ProjectRoleUnspecified);
    }
    var known := CheckMethods(sv, requested.permissions);
    if !known {
      return Some(UnknownMethod);
    }
    if !RolesRequestable(requested.machineRoles, seen.machineRoles) {
      return Some(MachinesForbidden);
    }
    var asked, _ := GetTokenPermissions(sv, pat, Some(AsRequested(current, requested)));
    if asked.Err? {
      return Some(asked.error);
    }
    error := CheckSubjects(mine.value, asked.value);
  }

  /** An api token without an admin role may request exactly what it has itself. */
  lemma OwnScopeIsAcceptable(sv: Services, pat: Memberships, current: Token)
    requires !current.isUser && current.adminRole.None? && current.infraRole != Some(Unspecified)
    requires Unspecified !in current.tenantRoles.Values && Unspecified !in current.projectRoles.Values
    requires MethodsKnown(sv, current.permissions)
    ensures Acceptable(sv, pat, current, current)
  {
    assert AsRequested(current, current) == current;
    var mine := Evaluated(sv, pat, Some(current));
    assert mine.Ok?;
    hide Evaluated;
    assert forall m | m in mine.value :: MethodCovered(mine.value, m, mine.value[m]);
  }

  /**
   An accepted request asks for known methods only, and for roles of projects, tenants and machines the
   current token has roles for - a user token those of its memberships - unless it has one for "*".
   */
  lemma AcceptedRolesAreHeld(sv: Services, pat: Memberships, current: Token, requested: Token, s: string)
    ensures Acceptable(sv, pat, current, requested) && current.user != "" ==>
              && (s in requested.projectRoles ==>
                    && requested.projectRoles[s] != Unspecified
                    && var held := if current.isUser then pat.projectRoles else current.projectRoles;
                       s in held || ANY in held)
              && (s in requested.tenantRoles ==>
                    && requested.tenantRoles[s] != Unspecified
                    && var held := if current.isUser then pat.tenantRoles else current.tenantRoles;
                       s in held || ANY in held)
              && (s in requested.machineRoles ==> s in current.machineRoles || ANY in current.machineRoles)
              && forall p, m | p in requested.permissions && m in p.methods :: m in sv.methods
  {
    hide Evaluated;
    assert s in requested.projectRoles ==> requested.projectRoles[s] in requested.projectRoles.Values;
    assert s in requested.tenantRoles ==> requested.tenantRoles[s] in requested.tenantRoles.Values;
  }

  // ---------- no wider scope ----------

  predicate Wildcard(sv: Services, pat: Memberships, token: Token, m: string) {
    var r := Evaluated(sv, pat, Some(token));
    r.Ok? && m in r.value && ANY in r.value[m]
  }

  lemma {:induction false} LongerThanAll(names: set<string>) returns (name: string)
    ensures name != "" && forall s | s in names :: |s| < |name|
  {
    name := "x";
    if names != {} {
      var s :| s in names;
      var rest := LongerThanAll(names - {s});
      name := rest + s;
      assert forall t | t in names :: t == s || t in names - {s};
    }
  }

  /** Every subject an accepted request names is within the reach of the current token. */
  lemma AskedIsCovered(sv: Services, pat: Memberships, current: Token, requested: Token, m: string, subject: string)
    requires Acceptable(sv, pat, current, requested) && !Wildcard(sv, pat, AsRequested(current, requested), m)
    requires Permits(sv, pat, Some(AsRequested(current, requested)), m, subject)
    ensures Permits(sv, pat, Some(current), m, subject)
  {
    hide Evaluated, AsRequested;
  }

  /**
   On one method an accepted request stays within the current token exactly when it holds no wildcard
   there, or the current token does as well: the check lets every wildcard pass.
   */
  lemma ScopeIsKeptExactly(sv: Services, pat: Memberships, current: Token, requested: Token, m: string)
    requires Acceptable(sv, pat, current, requested) && m in sv.methods
    ensures (forall subject | Permits(sv, pat, Some(AsRequested(current, requested)), m, subject) ::
            Permits(sv, pat, Some(current), m, subject))
            <==> (Wildcard(sv, pat, AsRequested(current, requested), m) ==> Wildcard(sv, pat, current, m))
  {
    var asked := AsRequested(current, requested);
    if Wildcard(sv, pat, asked, m) && !Wildcard(sv, pat, current, m) {
      var mine := Evaluated(sv, pat, Some(current)).value;
      hide Evaluated;
      var stranger := LongerThanAll(if m in mine then mine[m] else {});
      assert Permits(sv, pat, Some(asked), m, stranger) && !Permits(sv, pat, Some(current), m, stranger);
    } else if !Wildcard(sv, pat, asked, m) {
      forall subject | Permits(sv, pat, Some(asked), m, subject) ensures Permits(sv, pat, Some(current), m, subject) {
        AskedIsCovered(sv, pat, current, requested, m, subject);
      }
    }
  }

  /** No project and no tenant is called "*". */
  predicate OrdinaryNames(pat: Memberships) {
    ANY !in pat.projectRoles && ANY !in pat.tenantRoles
  }

  /** Without an admin role there is no wildcard left on a scoped method. */
  lemma NoWildcardLeft(sv: Services, pat: Memberships, t: Token, m: string)
    requires t.adminRole.None? && Scoped(sv, m) && OrdinaryNames(pat)
    ensures ANY !in Effective(sv, pat, t, m)
  {
  }

  /**
   An accepted request without an admin role does not widen the scope: on methods that belong to a project
   or to a tenant, whatever the requested token permits the current token permits as well.
   */
  lemma AcceptedRequestDoesNotWidenScope(sv: Services, pat: Memberships, current: Token, requested: Token,
                                         m: string, subject: string)
    requires OrdinaryNames(pat) && AsRequested(current, requested).adminRole.None? && Scoped(sv, m)
    ensures Acceptable(sv, pat, current, requested)
            && Permits(sv, pat, Some(AsRequested(current, requested)), m, subject) ==>
              Permits(sv, pat, Some(current), m, subject)
  {
    var t := AsRequested(current, requested);
    if Acceptable(sv, pat, current, requested) && Permits(sv, pat, Some(t), m, subject) && current.user != "" {
      var asked := Evaluated(sv, pat, Some(t));
      assert m in asked.value ==> asked.value[m] == Effective(sv, pat, t, m);
      NoWildcardLeft(sv, pat, t, m);
      hide Effective;
      assert !Wildcard(sv, pat, t, m);
      AskedIsCovered(sv, pat, current, requested, m, subject);
    }
  }

  // ---------- wildcards in terms of the request ----------

  predicate RoleForAll(roles: Roles, table: RoleMethods, m: string) {
    ANY in roles && m in MethodsOf(table, roles[ANY])
  }

  /** The request itself names every subject of the method: by the infra role, a permission or a role for "*". */
  predicate AsksForAll(sv: Services, requested: Token, m: string) {
    || (requested.infraRole.Some? && requested.infraRole != Some(Unspecified)
        && m in MethodsOf(sv.infraRoles, requested.infraRole.value))
    || (exists p | p in requested.permissions :: p.subject == ANY && m in p.methods)
    || RoleForAll(requested.machineRoles, sv.machineRoles, m)
    || RoleForAll(requested.tenantRoles, sv.tenantRoles, m)
    || RoleForAll(requested.projectRoles, sv.projectRoles, m)
  }

  lemma GrantsAll(sv: Services, current: Token, requested: Token, m: string)
    requires AsRequested(current, requested).adminRole.None?
    ensures ANY in Granted(sv, AsRequested(current, requested), m) <==> AsksForAll(sv, requested, m)
  {
    if p :| p in requested.permissions && p.subject == ANY && m in p.methods {
      assert ANY in ByPermission(requested.permissions, m);
    }
  }

  /** On methods of projects and tenants the wildcard is reduced, on all others it stays. */
  lemma WildcardStays(sv: Services, pat: Memberships, t: Token, m: string)
    requires t.adminRole.None? && !t.isUser && OrdinaryNames(pat)
    ensures ANY in Effective(sv, pat, t, m) <==> ANY in Granted(sv, t, m) && m !in sv.project && m !in sv.tenant
  {
    hide Granted;
  }

  /** When a request without an admin role holds a wildcard on a method, read off the request. */
  lemma WildcardOfRequest(sv: Services, pat: Memberships, current: Token, requested: Token, m: string)
    requires current.user != "" && AsRequested(current, requested).adminRole.None? && OrdinaryNames(pat)
    ensures Wildcard(sv, pat, AsRequested(current, requested), m) <==>
            AsksForAll(sv, requested, m) && m !in sv.project && m !in sv.tenant
  {
    var t := AsRequested(current, requested);
    GrantsAll(sv, current, requested, m);
    WildcardStays(sv, pat, t, m);
    GrantedSomewhere(sv, t, m);
    hide Granted, GrantedMethods, Effective, AsksForAll;
  }

  /**
   So an accepted request without an admin role stays within the current token on a method exactly
   unless it asks for all subjects of a method of neither projects nor tenants, which the current
   token does not reach all of.
   */
  lemma RequestKeepsScopeExactly(sv: Services, pat: Memberships, current: Token, requested: Token, m: string)
    requires Acceptable(sv, pat, current, requested) && m in sv.methods
    requires current.user != "" && AsRequested(current, requested).adminRole.None? && OrdinaryNames(pat)
    ensures (forall subject | Permits(sv, pat, Some(AsRequested(current, requested)), m, subject) ::
               Permits(sv, pat, Some(current), m, subject))
            <==> m in sv.project || m in sv.tenant || !AsksForAll(sv, requested, m) || Wildcard(sv, pat, current, m)
  {
    hide Acceptable, Permits, Wildcard, AsksForAll, AsRequested;
    ScopeIsKeptExactly(sv, pat, current, requested, m);
    WildcardOfRequest(sv, pat, current, requested, m);
  }

  // ---------- where the check lets a wildcard pass ----------

  function WildcardRequest(user: string, m: string): Token {
    Token(user, false, map[], map[], None, None, map[], [MethodPermission(ANY, [m])])
  }

  lemma WildcardGrants(sv: Services, user: string, m: string)
    ensures GrantedMethods(sv, WildcardRequest(user, m)) == {m} && Granted(sv, WildcardRequest(user, m), m) == {ANY}
  {
    var t := WildcardRequest(user, m);
    var p := t.permissions[0];
    assert p.methods[0] == m && MethodSet(p) == {m} && [] + [p] == t.permissions;
    OnePermissionMore([], p);
    assert PermissionMethods([]) == {} && ByPermission([], m) == {};
    hide PermissionMethods, ByPermission, MethodSet;
    assert PermissionMethods(t.permissions) == {m} && ByPermission(t.permissions, m) == {ANY};
    NoMembershipGrants(sv, m);
  }

  lemma WildcardEvaluates(sv: Services, pat: Memberships, user: string, m: string)
    requires user != "" && m !in sv.project && m !in sv.tenant
    ensures Evaluated(sv, pat, Some(WildcardRequest(user, m))) == Ok(map[m := {ANY}])
  {
    var t := WildcardRequest(user, m);
    WildcardGrants(sv, user, m);
    hide GrantedMethods, Granted;
    assert Effective(sv, pat, t, m) == {ANY} && AsEvaluated(t, pat) == t;
    hide Effective;
    assert GrantedMethods(sv, t) + {} == {m};
    assert Evaluated(sv, pat, Some(t)).value == map[m := {ANY}];
  }

  lemma NoMembershipGrants(sv: Services, m: string)
    ensures BySubject(map[], sv.machineRoles, m) == BySubject(map[], sv.tenantRoles, m) ==
            BySubject(map[], sv.projectRoles, m) == {}
  {
  }

  /**
   On a method of neither projects nor tenants, like those of machines, a token that reaches a single
   subject may request the wildcard, and with it every subject.
   */
  lemma UnscopedWildcardIsAccepted(sv: Services, pat: Memberships, current: Token, m: string, subject: string)
    requires current.user != "" && m in sv.methods && m !in sv.project && m !in sv.tenant
    requires Evaluated(sv, pat, Some(current)).Ok? && m in Evaluated(sv, pat, Some(current)).value
    ensures Acceptable(sv, pat, current, WildcardRequest(current.user, m))
    ensures Permits(sv, pat, Some(WildcardRequest(current.user, m)), m, subject)
  {
    var requested := WildcardRequest(current.user, m);
    WildcardEvaluates(sv, pat, current.user, m);
    assert AsRequested(current, requested) == requested;
    assert MethodsKnown(sv, requested.permissions);
    var mine := Evaluated(sv, pat, Some(current)).value;
    assert MethodCovered(mine, m, {ANY});
    hide Evaluated, AsRequested, MethodsKnown, MethodCovered, AsEvaluated, WildcardRequest;
  }

  /** For example, a machine's own token gets a token for every machine. */
  lemma MachineWidensItsScope(sv: Services, pat: Memberships, current: Token)
    requires sv == Services({"m"}, {}, {}, {}, {}, map[], map[Editor := {"m"}], map[], map[], {})
    requires current == Token("u", false, map[], map[], None, None, map["m1" := Editor], [])
    ensures var asked := AsRequested(current, WildcardRequest("u", "m"));
            && Acceptable(sv, pat, current, WildcardRequest("u", "m"))
            && Permits(sv, pat, Some(asked), "m", "m2") && !Permits(sv, pat, Some(current), "m", "m2")
  {
    OneMachineGrants(sv, pat, current);
    UnscopedWildcardIsAccepted(sv, pat, current, "m", "m2");
    hide Evaluated;
    assert AsRequested(current, WildcardRequest("u", "m")) == WildcardRequest("u", "m");
  }

  lemma OneMachineGrants(sv: Services, pat: Memberships, t: Token)
    requires sv == Services({"m"}, {}, {}, {}, {}, map[], map[Editor := {"m"}], map[], map[], {})
    requires t == Token("u", false, map[], map[], None, None, map["m1" := Editor], [])
    ensures Evaluated(sv, pat, Some(t)) == Ok(map["m" := {"m1"}])
  {
    assert BySubject(t.machineRoles, sv.machineRoles, "m") == {"m1"} by { assert "m1" in t.machineRoles; }
    assert ByRoles(t.machineRoles, sv.machineRoles) == {"m"} by { assert "m1" in t.machineRoles; }
    assert ByPermission([], "m") == {} && PermissionMethods([]) == {};
    NoMembershipGrants(sv, "m");
    assert GrantedMethods(sv, t) == {"m"} && Granted(sv, t, "m") == {"m1"};
    hide GrantedMethods, Granted;
    assert Effective(sv, pat, t, "m") == {"m1"} && AsEvaluated(t, pat) == t;
    hide Effective;
    assert GrantedMethods(sv, t) + {} == {"m"};
    assert Evaluated(sv, pat, Some(t)).value == map["m" := {"m1"}];
  }
}
