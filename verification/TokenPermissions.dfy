/**
 Effective permissions of a token: which subjects it may use each method on.
 The service tables (methods, visibilities, roles) and the memberships of the user are parameters. Go maps
 are traversed in an arbitrary order.
 */
module TokenPermissions {
  import opened Wrappers

  const ANY := "*"

  datatype AdminRole = AdminUnspecified | AdminEditor | AdminViewer
  datatype Role = Unspecified | Owner | Editor | Viewer | Guest

  type Roles = map<string, Role>
  type RoleMethods = map<Role, set<string>>

  datatype Services = Services(
    methods: set<string>, public: set<string>, self: set<string>, project: set<string>, tenant: set<string>,
    infraRoles: RoleMethods, machineRoles: RoleMethods, tenantRoles: RoleMethods, projectRoles: RoleMethods,
    adminViewerMethods: set<string>)

  datatype MethodPermission = MethodPermission(subject: string, methods: seq<string>)

  datatype Token = Token(
    user: string, isUser: bool, projectRoles: Roles, tenantRoles: Roles, adminRole: Option<AdminRole>,
    infraRole: Option<Role>, machineRoles: Roles, permissions: seq<MethodPermission>)

  datatype Memberships = Memberships(projectRoles: Roles, tenantRoles: Roles)

  /** From method to allowed subjects. */
  type Permissions = map<string, set<string>>

  datatype TokenError =
    | InvalidAdminRole | TenantsForbidden | TenantRoleUnspecified | ProjectsForbidden | ProjectRoleUnspecified
    | UnknownMethod | MachinesForbidden | MethodNotAllowed | SubjectNotAllowed

  function MethodsOf(table: RoleMethods, role: Role): set<string> {
    if role in table then table[role] else {}
  }

  function At(tp: Permissions, m: string): set<string> {
    if m in tp then tp[m] else {}
  }

  // ---------- the specification ----------

  function BySubject(roles: Roles, table: RoleMethods, m: string): set<string> {
    set s | s in roles && m in MethodsOf(table, roles[s])
  }

  function ByPermission(ps: seq<MethodPermission>, m: string): set<string> {
    set p | p in ps && m in p.methods :: p.subject
  }

  /** The token as it is evaluated: a user token takes its roles from the memberships. */
  function AsEvaluated(t: Token, pat: Memberships): Token {
    if t.isUser
    then t.(projectRoles := pat.projectRoles, tenantRoles := pat.tenantRoles, adminRole := None, permissions := [])
    else t
  }

  /** The subjects a method is granted on by the roles and permissions in the token. */
  function Granted(sv: Services, t: Token, m: string): set<string> {
    (if t.adminRole == Some(AdminViewer) && m in sv.adminViewerMethods then {ANY} else {})
    + (if t.infraRole.Some? && m in MethodsOf(sv.infraRoles, t.infraRole.value) then {ANY} else {})
    + BySubject(t.machineRoles, sv.machineRoles, m)
    + ByPermission(t.permissions, m)
    + BySubject(t.tenantRoles, sv.tenantRoles, m)
    + BySubject(t.projectRoles, sv.projectRoles, m)
  }

  /** For anyone but admins, "*" on a project or tenant method means the user's own. */
  function Reduced(sv: Services, pat: Memberships, m: string, subjects: set<string>): set<string> {
    if ANY !in subjects then subjects
    else
      var s1 := if m in sv.project then subjects - {ANY} + BySubject(pat.projectRoles, sv.projectRoles, m)
        else subjects;
      if m in sv.tenant then s1 - {ANY} + BySubject(pat.tenantRoles, sv.tenantRoles, m) else s1
  }

  function Within(subjects: set<string>, members: Roles): set<string> {
    set s | s in subjects && (s == ANY || s == "" || s in members)
  }

  function Filtered(sv: Services, pat: Memberships, m: string, subjects: set<string>): set<string> {
    if m in sv.project then Within(subjects, pat.projectRoles)
    else if m in sv.tenant then Within(subjects, pat.tenantRoles)
    else subjects
  }

  predicate OpenToUsers(sv: Services, t: Token, m: string) {
    t.isUser && (m in sv.public || m in sv.self)
  }

  function AfterReduction(sv: Services, pat: Memberships, t: Token, m: string): set<string> {
    Filtered(sv, pat, m, if t.adminRole.None? then Reduced(sv, pat, m, Granted(sv, t, m)) else Granted(sv, t, m))
  }

  function Effective(sv: Services, pat: Memberships, t: Token, m: string): set<string> {
    AfterReduction(sv, pat, t, m) + if OpenToUsers(sv, t, m) then {ANY} else {}
  }

  predicate IsAnonymous(token: Option<Token>) {
    token.None? || token.value.user == ""
  }

  function ByRoles(roles: Roles, table: RoleMethods): set<string> {
    set s, m | s in roles && m in MethodsOf(table, roles[s]) :: m
  }

  /** The methods granted on anything at all. */
  function GrantedMethods(sv: Services, t: Token): set<string> {
    (if t.adminRole == Some(AdminViewer) then sv.adminViewerMethods else {})
    + (if t.infraRole.Some? then MethodsOf(sv.infraRoles, t.infraRole.value) else {})
    + ByRoles(t.machineRoles, sv.machineRoles)
    + PermissionMethods(t.permissions)
    + ByRoles(t.tenantRoles, sv.tenantRoles)
    + ByRoles(t.projectRoles, sv.projectRoles)
  }

  /** The result of an evaluation, method by method. */
  function Evaluated(sv: Services, pat: Memberships, token: Option<Token>): Result<Permissions, TokenError> {
    if IsAnonymous(token) then Ok(map m | m in sv.public :: {ANY})
    else
      var t := AsEvaluated(token.value, pat);
      if t.adminRole == Some(AdminEditor) then Ok(map m | m in sv.methods :: {ANY})
      else if t.adminRole == Some(AdminUnspecified) then Err(InvalidAdminRole)
      else
        var methods := GrantedMethods(sv, t) + if t.isUser then sv.public + sv.self else {};
        Ok(map m | m in methods :: Effective(sv, pat, t, m))
  }

  lemma RolesGrant(roles: Roles, table: RoleMethods, m: string)
    ensures m in ByRoles(roles, table) <==> BySubject(roles, table, m) != {}
  {
    if m in ByRoles(roles, table) {
      var s :| s in roles && m in MethodsOf(table, roles[s]);
      assert s in BySubject(roles, table, m);
    }
    if BySubject(roles, table, m) != {} {
      var s :| s in BySubject(roles, table, m);
    }
  }

  lemma GrantedSomewhere(sv: Services, t: Token, m: string)
    ensures m in GrantedMethods(sv, t) <==> Granted(sv, t, m) != {}
  {
    RolesGrant(t.machineRoles, sv.machineRoles, m);
    RolesGrant(t.tenantRoles, sv.tenantRoles, m);
    RolesGrant(t.projectRoles, sv.projectRoles, m);
    PermissionsGrant(t.permissions, m);
    hide BySubject, ByRoles, ByPermission, PermissionMethods, MethodsOf;
    if Granted(sv, t, m) != {} {
      var s :| s in Granted(sv, t, m);
    }
    assert t.adminRole == Some(AdminViewer) && m in sv.adminViewerMethods ==> ANY in Granted(sv, t, m);
    assert t.infraRole.Some? && m in MethodsOf(sv.infraRoles, t.infraRole.value) ==> ANY in Granted(sv, t, m);
    assert BySubject(t.machineRoles, sv.machineRoles, m) <= Granted(sv, t, m);
    assert ByPermission(t.permissions, m) <= Granted(sv, t, m);
    assert BySubject(t.tenantRoles, sv.tenantRoles, m) <= Granted(sv, t, m);
    assert BySubject(t.projectRoles, sv.projectRoles, m) <= Granted(sv, t, m);
  }

  lemma PermissionsGrant(ps: seq<MethodPermission>, m: string)
    ensures m in PermissionMethods(ps) <==> ByPermission(ps, m) != {}
  {
    if p :| p in ps && m in p.methods {
      assert p.subject in ByPermission(ps, m);
    }
    if ByPermission(ps, m) != {} {
      var s :| s in ByPermission(ps, m);
    }
  }

  // ---------- the evaluation ----------

  /** The methods were added to the keys, and every method gained the subjects that `more` says. */
  ghost predicate Added(before: Permissions, tp: Permissions, methods: set<string>, more: string -> set<string>) {
    && tp.Keys == before.Keys + methods
    && (forall m :: m !in methods ==> more(m) == {})
    && (forall m :: At(tp, m) == At(before, m) + more(m))
  }

  lemma AddedTwice(a: Permissions, b: Permissions, c: Permissions, methods: set<string>, more: string -> set<string>,
                   methods': set<string>, more': string -> set<string>, all: string -> set<string>)
    requires Added(a, b, methods, more) && Added(b, c, methods', more')
    requires forall m :: all(m) == more(m) + more'(m)
    ensures Added(a, c, methods + methods', all)
  {
  }

  function Only(methods: set<string>, subject: string): string -> set<string> {
    m => if m in methods then {subject} else {}
  }

  method Grant(before: Permissions, methods: set<string>, subject: string) returns (tp: Permissions)
    ensures Added(before, tp, methods, Only(methods, subject))
  {
    tp := before;
    var todo := methods;
    while todo != {}
      invariant todo <= methods
      invariant tp.Keys == before.Keys + (methods - todo)
      invariant forall m :: At(tp, m) == At(before, m) + if m in methods - todo then {subject} else {}
      decreases todo
    {
      var m :| m in todo;
      tp := tp[m := At(tp, m) + {subject}];
      todo := todo - {m};
    }
  }

  function FromRoles(roles: Roles, table: RoleMethods): string -> set<string> {
    m => BySubject(roles, table, m)
  }

  lemma OneRoleMore(roles: Roles, table: RoleMethods, s: string, role: Role)
    requires s !in roles
    ensures ByRoles(roles[s := role], table) == ByRoles(roles, table) + MethodsOf(table, role)
    ensures forall m :: BySubject(roles[s := role], table, m) ==
                        BySubject(roles, table, m) + Only(MethodsOf(table, role), s)(m)
  {
    var all := roles[s := role];
    assert forall x | x in roles :: x in all && all[x] == roles[x];
    forall m | m in ByRoles(roles, table) + MethodsOf(table, role) ensures m in ByRoles(all, table) {
      if m in MethodsOf(table, role) {
        assert m in MethodsOf(table, all[s]);
      } else {
        var x :| x in roles && m in MethodsOf(table, roles[x]);
        assert m in MethodsOf(table, all[x]);
      }
    }
  }

  lemma NoRolesAdded(tp: Permissions, table: RoleMethods)
    ensures Added(tp, tp, ByRoles(map[], table), FromRoles(map[], table))
  {
  }

  lemma AddRoleStep(before: Permissions, h: Permissions, tp: Permissions, done: Roles, table: RoleMethods, s: string,
                    role: Role)
    requires s !in done && Added(before, h, ByRoles(done, table), FromRoles(done, table))
    requires Added(h, tp, MethodsOf(table, role), Only(MethodsOf(table, role), s))
    ensures Added(before, tp, ByRoles(done[s := role], table), FromRoles(done[s := role], table))
  {
    OneRoleMore(done, table, s, role);
    hide Added, ByRoles, MethodsOf, Only;
    AddedTwice(before, h, tp, ByRoles(done, table), FromRoles(done, table), MethodsOf(table, role),
               Only(MethodsOf(table, role), s), FromRoles(done[s := role], table));
  }

  method GrantRoles(before: Permissions, roles: Roles, table: RoleMethods) returns (tp: Permissions)
    ensures Added(before, tp, ByRoles(roles, table), FromRoles(roles, table))
  {
    hide Added, ByRoles, BySubject, MethodsOf, Only;
    tp := before;
    var todo := roles.Keys;
    assert roles - todo == map[];
    NoRolesAdded(before, table);
    while todo != {}
      invariant todo <= roles.Keys
      invariant Added(before, tp, ByRoles(roles - todo, table), FromRoles(roles - todo, table))
      decreases todo
    {
      var s :| s in todo;
      var h, done := tp, roles - todo;
      tp := Grant(tp, MethodsOf(table, roles[s]), s);
      AddRoleStep(before, h, tp, done, table, s, roles[s]);
      assert done[s := roles[s]] == roles - (todo - {s});
      todo := todo - {s};
    }
    assert roles - todo == roles;
  }

  function PermissionMethods(ps: seq<MethodPermission>): set<string> {
    set p, m | p in ps && m in p.methods :: m
  }

  function FromPermissions(ps: seq<MethodPermission>): string -> set<string> {
    m => ByPermission(ps, m)
  }

  function MethodSet(p: MethodPermission): set<string> {
    set m | m in p.methods
  }

  lemma OnePermissionMore(ps: seq<MethodPermission>, p: MethodPermission)
    ensures PermissionMethods(ps + [p]) == PermissionMethods(ps) + MethodSet(p)
    ensures forall m :: ByPermission(ps + [p], m) == ByPermission(ps, m) + Only(MethodSet(p), p.subject)(m)
  {
    assert forall q :: q in ps + [p] <==> q in ps || q == p;
    forall m ensures m in PermissionMethods(ps + [p]) <==> m in PermissionMethods(ps) || m in p.methods {
      if m in p.methods {
        assert p in ps + [p];
      }
      if m in PermissionMethods(ps) {
        var q :| q in ps && m in q.methods;
        assert q in ps + [p];
      }
    }
    forall m ensures ByPermission(ps + [p], m) == ByPermission(ps, m) + Only(MethodSet(p), p.subject)(m) {
    }
  }

  method GrantPermissions(before: Permissions, ps: seq<MethodPermission>) returns (tp: Permissions)
    ensures Added(before, tp, PermissionMethods(ps), FromPermissions(ps))
  {
    tp := before;
    for i := 0 to |ps|
      invariant Added(before, tp, PermissionMethods(ps[..i]), FromPermissions(ps[..i]))
    {
      var h := tp;
      assert ps[..i + 1] == ps[..i] + [ps[i]];
      OnePermissionMore(ps[..i], ps[i]);
      tp := Grant(tp, MethodSet(ps[i]), ps[i].subject);
      hide Added, PermissionMethods, Only;
      AddedTwice(before, h, tp, PermissionMethods(ps[..i]), FromPermissions(ps[..i]), MethodSet(ps[i]),
                 Only(MethodSet(ps[i]), ps[i].subject), FromPermissions(ps[..i + 1]));
    }
    assert ps[..|ps|] == ps;
  }

  /** The roles that apply to any subject. */
  method GrantOnAny(sv: Services, t: Token) returns (tp: Permissions)
    ensures var viewer := if t.adminRole == Some(AdminViewer) then sv.adminViewerMethods else {};
            var infra := if t.infraRole.Some? then MethodsOf(sv.infraRoles, t.infraRole.value) else {};
            && tp.Keys == viewer + infra
            && forall m :: At(tp, m) == Only(viewer, ANY)(m) + Only(infra, ANY)(m)
  {
    tp := map[];
    if t.adminRole == Some(AdminViewer) {
      tp := Grant(tp, sv.adminViewerMethods, ANY);
    }
    if t.infraRole.Some? {
      tp := Grant(tp, MethodsOf(sv.infraRoles, t.infraRole.value), ANY);
    }
  }

  method GrantMemberships(sv: Services, t: Token, before: Permissions) returns (tp: Permissions)
    ensures tp.Keys == before.Keys + ByRoles(t.tenantRoles, sv.tenantRoles) + ByRoles(t.projectRoles, sv.projectRoles)
    ensures forall m :: At(tp, m) == At(before, m) + BySubject(t.tenantRoles, sv.tenantRoles, m) +
                                     BySubject(t.projectRoles, sv.projectRoles, m)
  {
    hide ByRoles, BySubject, At;
    tp := GrantRoles(before, t.tenantRoles, sv.tenantRoles);
    ghost var t1 := tp;
    tp := GrantRoles(tp, t.projectRoles, sv.projectRoles);
    forall m ensures At(tp, m) == At(before, m) + BySubject(t.tenantRoles, sv.tenantRoles, m) +
                                  BySubject(t.projectRoles, sv.projectRoles, m) {
      assert At(t1, m) == At(before, m) + FromRoles(t.tenantRoles, sv.tenantRoles)(m);
      assert At(tp, m) == At(t1, m) + FromRoles(t.projectRoles, sv.projectRoles)(m);
    }
  }

  /** All grants of a token, one kind after the other. */
  method GrantToken(sv: Services, t: Token) returns (tp: Permissions)
    ensures tp.Keys == GrantedMethods(sv, t)
    ensures forall m :: At(tp, m) == Granted(sv, t, m)
  {
    hide ByRoles, BySubject, PermissionMethods, ByPermission, At;
    tp := GrantOnAny(sv, t);
    ghost var t0 := tp;
    tp := GrantRoles(tp, t.machineRoles, sv.machineRoles);
    ghost var t1 := tp;
    tp := GrantPermissions(tp, t.permissions);
    ghost var t2 := tp;
    tp := GrantMemberships(sv, t, tp);
    forall m ensures At(tp, m) == Granted(sv, t, m) {
      assert At(t1, m) == At(t0, m) + FromRoles(t.machineRoles, sv.machineRoles)(m);
      assert At(t2, m) == At(t1, m) + FromPermissions(t.permissions)(m);
    }
  }

  method ReduceWildcards(sv: Services, pat: Memberships, before: Permissions) returns (tp: Permissions)
    ensures tp.Keys == before.Keys
    ensures forall m | m in tp :: tp[m] == Reduced(sv, pat, m, before[m])
  {
    tp := before;
    var todo := before.Keys;
    while todo != {}
      invariant todo <= tp.Keys == before.Keys
      invariant forall m | m in tp :: tp[m] == if m in todo then before[m] else Reduced(sv, pat, m, before[m])
      decreases todo
    {
      var m :| m in todo;
      todo := todo - {m};
      if ANY in tp[m] {
        if m in sv.project {
          tp := tp[m := tp[m] - {ANY} + BySubject(pat.projectRoles, sv.projectRoles, m)];
        }
        if m in sv.tenant {
          tp := tp[m := tp[m] - {ANY} + BySubject(pat.tenantRoles, sv.tenantRoles, m)];
        }
      }
    }
  }

  method FilterSubjects(sv: Services, pat: Memberships, before: Permissions) returns (tp: Permissions)
    ensures tp.Keys == before.Keys
    ensures forall m | m in tp :: tp[m] == Filtered(sv, pat, m, before[m])
  {
    tp := before;
    var todo := before.Keys;
    while todo != {}
      invariant todo <= tp.Keys == before.Keys
      invariant forall m | m in tp :: tp[m] == if m in todo then before[m] else Filtered(sv, pat, m, before[m])
      decreases todo
    {
      var m :| m in todo;
      todo := todo - {m};
      if m in sv.project {
        var kept := DropStrangers(tp[m], pat.projectRoles);
        tp := tp[m := kept];
      } else if m in sv.tenant {
        var kept := DropStrangers(tp[m], pat.tenantRoles);
        tp := tp[m := kept];
      }
    }
  }

  method DropStrangers(subjects: set<string>, members: Roles) returns (kept: set<string>)
    ensures kept == Within(subjects, members)
  {
    kept := subjects;
    var todo := subjects;
    while todo != {}
      invariant todo <= kept <= subjects
      invariant kept == Within(subjects - todo, members) + todo
      decreases todo
    {
      var s :| s in todo;
      todo := todo - {s};
      if !(s == ANY || s == "" || s in members) {
        kept := kept - {s};
      }
    }
    assert subjects - todo == subjects;
  }

  /** The token comes back as the evaluation leaves it: user tokens are overwritten. */
  method GetTokenPermissions(sv: Services, pat: Memberships, token: Option<Token>)
    returns (r: Result<Permissions, TokenError>, after: Option<Token>)
    ensures r == Evaluated(sv, pat, token)
    ensures after == if IsAnonymous(token) then token else Some(AsEvaluated(token.value, pat))
  {
    after := token;
    if token.None? || token.value.user == "" {
      var tp := Grant(map[], sv.public, ANY);
      forall m | m in tp ensures tp[m] == {ANY} {
        assert tp[m] == At(tp, m);
      }
      assert tp.Keys == sv.public;
      assert tp == map m | m in sv.public :: {ANY};
      return Ok(tp), after;
    }
    var t := token.value;
    if t.isUser {
      t := t.(projectRoles := pat.projectRoles, tenantRoles := pat.tenantRoles, adminRole := None, permissions := []);
    }
    after := Some(t);
    if t.adminRole == Some(AdminEditor) {
      return Ok(map m | m in sv.methods :: {ANY}), after;
    }
    if t.adminRole == Some(AdminUnspecified) {
      return Err(InvalidAdminRole), after;
    }
    var tp := EvaluateGrants(sv, pat, t);
    r := Ok(tp);
  }

  method OpenMethods(sv: Services, t: Token, before: Permissions) returns (tp: Permissions)
    ensures tp.Keys == before.Keys + if t.isUser then sv.public + sv.self else {}
    ensures forall m :: At(tp, m) == At(before, m) + if OpenToUsers(sv, t, m) then {ANY} else {}
  {
    tp := before;
    if t.isUser {
      tp := Grant(tp, sv.public, ANY);
      tp := Grant(tp, sv.self, ANY);
    }
  }

  method ReduceAndFilter(sv: Services, pat: Memberships, t: Token, granted: Permissions) returns (tp: Permissions)
    requires forall m :: At(granted, m) == Granted(sv, t, m)
    ensures tp.Keys == granted.Keys
    ensures forall m :: At(tp, m) == AfterReduction(sv, pat, t, m)
  {
    tp := granted;
    if t.adminRole.None? {
      tp := ReduceWildcards(sv, pat, tp);
    }
    tp := FilterSubjects(sv, pat, tp);
    forall m ensures At(tp, m) == AfterReduction(sv, pat, t, m) {
      assert At(granted, m) == Granted(sv, t, m);
      hide Granted;
    }
  }

  method EvaluateGrants(sv: Services, pat: Memberships, t: Token) returns (tp: Permissions)
    ensures tp == map m | m in GrantedMethods(sv, t) + (if t.isUser then sv.public + sv.self else {}) ::
                    Effective(sv, pat, t, m)
  {
    hide GrantedMethods, Granted, AfterReduction, OpenToUsers;
    tp := GrantToken(sv, t);
    tp := ReduceAndFilter(sv, pat, t, tp);
    ghost var reduced := tp;
    tp := OpenMethods(sv, t, tp);
    forall m | m in tp ensures tp[m] == Effective(sv, pat, t, m) {
      assert tp[m] == At(tp, m) == At(reduced, m) + if OpenToUsers(sv, t, m) then {ANY} else {};
    }
  }

  // ---------- authorisation ----------

  predicate Authorized(sv: Services, tp: Permissions, m: string, subject: string) {
    m in sv.methods && m in tp && (ANY in tp[m] || subject in tp[m])
  }

  /** Whether a request with the token passes; an invalid token passes nothing. */
  predicate Permits(sv: Services, pat: Memberships, token: Option<Token>, m: string, subject: string) {
    var r := Evaluated(sv, pat, token);
    r.Ok? && Authorized(sv, r.value, m, subject)
  }

  method Authorize(sv: Services, pat: Memberships, token: Option<Token>, m: string, subject: string) returns (ok: bool)
    ensures ok <==> Permits(sv, pat, token, m, subject)
  {
    if m !in sv.methods {
      return false;
    }
    var r, after := GetTokenPermissions(sv, pat, token);
    if r.Err? || m !in r.value {
      return false;
    }
    ok := ANY in r.value[m] || subject in r.value[m];
  }

  /** A method visible to the members of one project, or of one tenant, and to nobody else. */
  predicate Scoped(sv: Services, m: string) {
    (m in sv.project) != (m in sv.tenant) && m !in sv.public && m !in sv.self
  }

  function MembersFor(sv: Services, pat: Memberships, m: string): set<string> {
    if m in sv.project then pat.projectRoles.Keys else pat.tenantRoles.Keys
  }

  /** Whatever a token without an admin role asks for, it reaches the user's own projects and tenants only. */
  lemma SubjectsStayWithinMemberships(sv: Services, pat: Memberships, t: Token, m: string)
    requires t.adminRole.None? && Scoped(sv, m)
    ensures Effective(sv, pat, t, m) <= MembersFor(sv, pat, m) + {""}
  {
  }

  /** Every role and permission of one token is covered by the other one. */
  ghost predicate Covers(sv: Services, t: Token, u: Token) {
    && RolesCovered(sv.machineRoles, t.machineRoles, u.machineRoles)
    && RolesCovered(sv.tenantRoles, t.tenantRoles, u.tenantRoles)
    && RolesCovered(sv.projectRoles, t.projectRoles, u.projectRoles)
    && (t.infraRole.Some? ==>
          u.infraRole.Some? && MethodsOf(sv.infraRoles, t.infraRole.value) <=
            MethodsOf(sv.infraRoles, u.infraRole.value))
    && (forall p, m | p in t.permissions && m in p.methods :: exists q | q in u.permissions ::
      q.subject == p.subject && m in q.methods)
  }

  ghost predicate RolesCovered(table: RoleMethods, some: Roles, more: Roles) {
    forall s | s in some :: s in more && MethodsOf(table, some[s]) <= MethodsOf(table, more[s])
  }

  lemma GrantedIsMonotone(sv: Services, t: Token, u: Token, m: string)
    requires Covers(sv, t, u) && t.adminRole.None?
    ensures Granted(sv, t, m) <= Granted(sv, u, m)
  {
    assert ByPermission(t.permissions, m) <= ByPermission(u.permissions, m);
    assert BySubject(t.machineRoles, sv.machineRoles, m) <= BySubject(u.machineRoles, sv.machineRoles, m);
    assert BySubject(t.tenantRoles, sv.tenantRoles, m) <= BySubject(u.tenantRoles, sv.tenantRoles, m);
    assert BySubject(t.projectRoles, sv.projectRoles, m) <= BySubject(u.projectRoles, sv.projectRoles, m);
  }

  /** More roles and permissions in an api token never take anything away. */
  lemma PermitsIsMonotone(sv: Services, pat: Memberships, t: Token, u: Token, m: string, subject: string)
    requires t.adminRole.None? && u.adminRole.None? && !t.isUser && !u.isUser && t.user == u.user
    requires Covers(sv, t, u) && Permits(sv, pat, Some(t), m, subject)
    ensures Permits(sv, pat, Some(u), m, subject)
  {
    if t.user != "" {
      GrantedIsMonotone(sv, t, u, m);
      EffectiveIsMonotone(sv, pat, t, u, m);
      GrantedSomewhere(sv, t, m);
      GrantedSomewhere(sv, u, m);
    }
  }

  lemma EffectiveIsMonotone(sv: Services, pat: Memberships, t: Token, u: Token, m: string)
    requires t.adminRole.None? && u.adminRole.None? && !t.isUser && !u.isUser
    requires Granted(sv, t, m) <= Granted(sv, u, m)
    ensures Effective(sv, pat, t, m) <= Effective(sv, pat, u, m) || ANY in Effective(sv, pat, u, m)
    ensures ANY in Effective(sv, pat, t, m) ==> ANY in Effective(sv, pat, u, m)
  {
    hide Granted;
  }

  // ---------- what permits a request, kind of token by kind of token ----------

  /** Without a token, or with one that names no user, exactly the public methods are open, on any subject. */
  lemma AnonymousReachesPublicMethods(sv: Services, pat: Memberships, token: Option<Token>, m: string, subject: string)
    ensures token.None? || token.value.user == "" ==>
              (Permits(sv, pat, token, m, subject) <==> m in sv.methods && m in sv.public)
  {
  }

  lemma NothingGrantedNothingReached(sv: Services, pat: Memberships, t: Token, m: string)
    requires Granted(sv, t, m) == {}
    ensures AfterReduction(sv, pat, t, m) == {}
  {
  }

  lemma PermitsByEffective(sv: Services, pat: Memberships, t: Token, m: string, subject: string)
    requires t.user != "" && (t.isUser || t.adminRole.None? || t.adminRole == Some(AdminViewer))
    ensures var u := AsEvaluated(t, pat);
            Permits(sv, pat, Some(t), m, subject) <==>
            m in sv.methods && (ANY in Effective(sv, pat, u, m) || subject in Effective(sv, pat, u, m))
  {
    var u := AsEvaluated(t, pat);
    GrantedSomewhere(sv, u, m);
    if Granted(sv, u, m) == {} {
      NothingGrantedNothingReached(sv, pat, u, m);
    }
    hide Granted, GrantedMethods, AfterReduction;
  }

  /** The api token that a user token stands for: the memberships decide, whatever it carries itself. */
  function OfMember(t: Token, pat: Memberships): Token {
    Token(t.user, false, pat.projectRoles, pat.tenantRoles, None, t.infraRole, t.machineRoles, [])
  }

  /**
   A user token permits the public and the self methods and, of all others, what an api token with the
   roles of the memberships permits; the roles and permissions it carries do not matter.
   */
  lemma UserTokenIsItsMemberships(sv: Services, pat: Memberships, t: Token, m: string, subject: string)
    ensures t.isUser && t.user != "" ==>
              (Permits(sv, pat, Some(t), m, subject) <==>
               || (m in sv.methods && (m in sv.public || m in sv.self))
               || Permits(sv, pat, Some(OfMember(t, pat)), m, subject))
  {
    if t.isUser && t.user != "" {
      var u, v := AsEvaluated(t, pat), OfMember(t, pat);
      assert Granted(sv, u, m) == Granted(sv, v, m);
      PermitsByEffective(sv, pat, t, m, subject);
      PermitsByEffective(sv, pat, v, m, subject);
      hide Permits, Granted, Reduced, Filtered;
    }
  }

  /** An editor reaches every known method, and an admin role that is not specified reaches none. */
  lemma EditorReachesEverything(sv: Services, pat: Memberships, t: Token, m: string, subject: string)
    ensures !t.isUser && t.user != "" && t.adminRole == Some(AdminEditor) ==>
              (Permits(sv, pat, Some(t), m, subject) <==> m in sv.methods)
    ensures !t.isUser && t.user != "" && t.adminRole == Some(AdminUnspecified) ==>
              !Permits(sv, pat, Some(t), m, subject)
  {
  }

  /** A role or a permission in the token itself names this subject for the method. */
  predicate Names(sv: Services, t: Token, m: string, subject: string) {
    || (subject in t.machineRoles && m in MethodsOf(sv.machineRoles, t.machineRoles[subject]))
    || (subject in t.tenantRoles && m in MethodsOf(sv.tenantRoles, t.tenantRoles[subject]))
    || (subject in t.projectRoles && m in MethodsOf(sv.projectRoles, t.projectRoles[subject]))
    || exists p | p in t.permissions :: p.subject == subject && m in p.methods
  }

  /** A role grants the method on all subjects, or a role or permission names the wildcard for it. */
  predicate NamesAll(sv: Services, t: Token, m: string) {
    || (t.adminRole == Some(AdminViewer) && m in sv.adminViewerMethods)
    || (t.infraRole.Some? && m in MethodsOf(sv.infraRoles, t.infraRole.value))
    || Names(sv, t, m, ANY)
  }

  /** The user's own membership includes the method on this project or tenant. */
  predicate OwnRole(sv: Services, pat: Memberships, m: string, subject: string) {
    || (&& m in sv.project && subject in pat.projectRoles
        && m in MethodsOf(sv.projectRoles, pat.projectRoles[subject]))
    || (&& m in sv.tenant && subject in pat.tenantRoles
        && m in MethodsOf(sv.tenantRoles, pat.tenantRoles[subject]))
  }

  /** Only a membership in a project or tenant called "*" lets the wildcard itself through. */
  predicate KeepsWildcard(sv: Services, pat: Memberships, m: string) {
    if m in sv.tenant then ANY in pat.tenantRoles && m in MethodsOf(sv.tenantRoles, pat.tenantRoles[ANY])
    else ANY in pat.projectRoles && m in MethodsOf(sv.projectRoles, pat.projectRoles[ANY])
  }

  /** Methods on projects are for its members, methods on tenants for theirs, and the empty subject is for all. */
  predicate Reachable(sv: Services, pat: Memberships, m: string, subject: string) {
    || subject == ""
    || (if m in sv.project then subject in pat.projectRoles else m in sv.tenant ==> subject in pat.tenantRoles)
  }

  lemma GrantedIsNamed(sv: Services, t: Token, m: string, subject: string)
    ensures subject in Granted(sv, t, m) <==> Names(sv, t, m, subject) || (subject == ANY && NamesAll(sv, t, m))
  {
    hide MethodsOf;
  }

  lemma ReducedAndFiltered(sv: Services, pat: Memberships, m: string, subjects: set<string>, subject: string)
    requires m in sv.project || m in sv.tenant
    ensures subject != ANY ==>
              (subject in Filtered(sv, pat, m, Reduced(sv, pat, m, subjects)) <==>
               && Reachable(sv, pat, m, subject)
               && (subject in subjects || (ANY in subjects && OwnRole(sv, pat, m, subject))))
    ensures ANY in Filtered(sv, pat, m, Reduced(sv, pat, m, subjects)) <==>
            ANY in subjects && KeepsWildcard(sv, pat, m)
  {
    hide MethodsOf;
  }

  /**
   An api token without admin role reaches a subject of a project or tenant method if and only if the user
   is a member there and the token names the subject for the method, or it names all subjects and the
   membership includes the method.
   */
  lemma ProjectOrTenantMethodExactly(sv: Services, pat: Memberships, t: Token, m: string, subject: string)
    ensures !t.isUser && t.user != "" && t.adminRole.None? && (m in sv.project || m in sv.tenant) ==>
              (Permits(sv, pat, Some(t), m, subject) <==>
               && m in sv.methods
               && (|| (NamesAll(sv, t, m) && KeepsWildcard(sv, pat, m))
                   || (&& subject != ANY && Reachable(sv, pat, m, subject)
                       && (Names(sv, t, m, subject) || (NamesAll(sv, t, m) && OwnRole(sv, pat, m, subject))))))
  {
    if !t.isUser && t.user != "" && t.adminRole.None? && (m in sv.project || m in sv.tenant) {
      GrantedIsNamed(sv, t, m, subject);
      GrantedIsNamed(sv, t, m, ANY);
      PermitsByEffective(sv, pat, t, m, subject);
      ReducedAndFiltered(sv, pat, m, Granted(sv, t, m), subject);
      hide Permits, Granted, Names, NamesAll, Reachable, OwnRole, KeepsWildcard, Reduced, Filtered;
    }
  }

  /** On any other method the subjects the token names are reached, and all of them if it names the wildcard. */
  lemma OtherMethodExactly(sv: Services, pat: Memberships, t: Token, m: string, subject: string)
    ensures !t.isUser && t.user != "" && t.adminRole.None? && m !in sv.project && m !in sv.tenant ==>
              (Permits(sv, pat, Some(t), m, subject) <==>
               m in sv.methods && (Names(sv, t, m, subject) || NamesAll(sv, t, m)))
  {
    if !t.isUser && t.user != "" && t.adminRole.None? && m !in sv.project && m !in sv.tenant {
      GrantedIsNamed(sv, t, m, subject);
      GrantedIsNamed(sv, t, m, ANY);
      PermitsByEffective(sv, pat, t, m, subject);
      hide Permits, Granted, Names, NamesAll;
    }
  }

  lemma JustFiltered(sv: Services, pat: Memberships, m: string, subjects: set<string>, subject: string)
    ensures subject in Filtered(sv, pat, m, subjects) <==>
            subject in subjects && (subject == ANY || Reachable(sv, pat, m, subject))
  {
  }

  /**
   A viewer keeps every wildcard: it reaches its methods, and the ones its other roles grant on all subjects,
   everywhere, and single subjects as anyone else does.
   */
  lemma ViewerExactly(sv: Services, pat: Memberships, t: Token, m: string, subject: string)
    ensures !t.isUser && t.user != "" && t.adminRole == Some(AdminViewer) ==>
              (Permits(sv, pat, Some(t), m, subject) <==>
               && m in sv.methods
               && (NamesAll(sv, t, m) || (Names(sv, t, m, subject) && Reachable(sv, pat, m, subject))))
  {
    if !t.isUser && t.user != "" && t.adminRole == Some(AdminViewer) {
      GrantedIsNamed(sv, t, m, subject);
      GrantedIsNamed(sv, t, m, ANY);
      PermitsByEffective(sv, pat, t, m, subject);
      JustFiltered(sv, pat, m, Granted(sv, t, m), subject);
      JustFiltered(sv, pat, m, Granted(sv, t, m), ANY);
      hide Permits, Granted, Names, NamesAll, Reduced, Filtered, Reachable;
    }
  }

  /** A member permits the methods of the role it holds, on the project or tenant it holds it for. */
  lemma MembersUseTheirRoles(sv: Services, pat: Memberships, t: Token, m: string, subject: string)
    ensures t.isUser && t.user != "" && subject != ANY && m in sv.methods && OwnRole(sv, pat, m, subject)
            && Reachable(sv, pat, m, subject) ==>
              Permits(sv, pat, Some(t), m, subject)
  {
    var u := OfMember(t, pat);
    UserTokenIsItsMemberships(sv, pat, t, m, subject);
    ProjectOrTenantMethodExactly(sv, pat, u, m, subject);
    assert OwnRole(sv, pat, m, subject) ==> Names(sv, u, m, subject);
    hide Permits;
  }
}
