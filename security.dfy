/** The user-account security rules (useraccount/security): turning a Keycloak access
    token into authorities, deriving the current user from the authentication in the
    security context, and the role and ownership guards the services call.
    The security context is passed as a value: whether security is enabled
    (`app.security.enabled`) and the current authentication, if any. */
module Security {
  import opened Outcomes
  import opened Text

  /** A JSON claim value as the token decoder hands it over. */
  datatype Claim = Str(text: string) | Coll(items: seq<Claim>) | Obj(fields: map<string, Claim>) | OtherValue

  /** The claims of a decoded JWT that the rules read. `getClaimAsMap` yields the
      object claims realm_access and resource_access, or none when absent. */
  datatype Jwt = Jwt(
    subject: Option<string>,
    preferredUsername: Option<string>,
    givenName: Option<string>,
    familyName: Option<string>,
    email: Option<string>,
    realmAccess: Option<map<string, Claim>>,
    resourceAccess: Option<map<string, Claim>>)

  /** What kind of `Authentication` object the security context holds. */
  datatype AuthKind =
    | Anonymous                        // AnonymousAuthenticationToken
    | JwtBearer(token: Jwt)            // JwtAuthenticationToken
    | OtherToken(principal: Option<Jwt>) // any other token; its principal may be a Jwt

  datatype Authentication = Authentication(
    kind: AuthKind,
    authenticated: bool,
    name: Option<string>,
    authorities: seq<string>)

  /** The security context a service consults. */
  datatype SecurityContext = SecurityContext(securityEnabled: bool, authentication: Option<Authentication>)

  /** `useraccount.api.UserAccount`. */
  datatype UserAccount = UserAccount(
    subject: Option<string>,
    firstName: Option<string>,
    lastName: Option<string>,
    email: Option<string>,
    roles: seq<string>)

  const RolePrefix: string := "ROLE_"
  const StaffRole: string := "STAFF"
  const AnonymousUser: UserAccount := UserAccount(Some("anonymous"), None, None, None, [])

  function Get(m: map<string, Claim>, key: string): Option<Claim> {
    if key in m then Some(m[key]) else None
  }

  // ---------------------------------------------------------------------------------
  // KeycloakJwtAuthenticationConverter

  /** One element of a roles claim: a string is trimmed, dropped when blank and
      otherwise becomes "ROLE_" followed by its upper-cased text; anything else is
      dropped. */
  function RoleAuthorityOf(c: Claim): (r: Option<string>)
    ensures r.Some? <==> c.Str? && !IsBlank(Trim(c.text))
  {
    if c.Str? && !IsBlank(Trim(c.text)) then Some(RolePrefix + ToUpper(Trim(c.text))) else None
  }

  /** A granted role authority carries the prefix once and is entirely upper case. */
  lemma RoleAuthorityIsUpperCase(c: Claim)
    requires RoleAuthorityOf(c).Some?
    ensures var a := RoleAuthorityOf(c).value;
      StartsWith(a, RolePrefix) && a[|RolePrefix|..] == ToUpper(Trim(c.text)) && ToUpper(a) == a
  {
    PrefixedUpperIsUpper(Trim(c.text));
  }

  lemma PrefixedUpperIsUpper(s: string)
    ensures var a := RolePrefix + ToUpper(s);
      StartsWith(a, RolePrefix) && a[|RolePrefix|..] == ToUpper(s) && ToUpper(a) == a
  {
    var t := ToUpper(s);
    var a := RolePrefix + t;
    assert a[|RolePrefix|..] == t;
    ToUpperIdempotent(s);
    ToUpperAppend(RolePrefix, t);
    assert ToUpper(RolePrefix) == RolePrefix;
  }

  /** A stream's `filter` and `map` in one pass: the defined images of the items, in
      the order of the items. */
  function FilterMap<A, B>(items: seq<A>, f: A -> Option<B>): (r: seq<B>)
    ensures |r| <= |items|
  {
    if items == [] then []
    else
      var init := FilterMap(items[..|items| - 1], f);
      match f(items[|items| - 1])
      case Some(b) => init + [b]
      case None => init
  }

  /** `FilterMap` keeps exactly the defined images. */
  lemma {:induction false} FilterMapMembers<A, B>(items: seq<A>, f: A -> Option<B>, b: B)
    ensures b in FilterMap(items, f) <==> exists i :: 0 <= i < |items| && f(items[i]) == Some(b)
  {
    if items != [] {
      var prefix := items[..|items| - 1];
      FilterMapMembers(prefix, f, b);
      if b in FilterMap(prefix, f) {
        var i :| 0 <= i < |prefix| && f(prefix[i]) == Some(b);
        assert items[i] == prefix[i];
      }
      if exists i :: 0 <= i < |items| && f(items[i]) == Some(b) {
        var i :| 0 <= i < |items| && f(items[i]) == Some(b);
        if i < |prefix| {
          assert prefix[i] == items[i];
        }
      }
    }
  }

  /** `readRoleAuthorities`: collected into a LinkedHashSet, so duplicates collapse
      onto their first occurrence. A claim that is absent or not a collection yields
      nothing. */
  function ReadRoleAuthorities(rolesClaim: Option<Claim>): (r: seq<string>)
    ensures !(rolesClaim.Some? && rolesClaim.value.Coll?) ==> r == []
  {
    if rolesClaim.Some? && rolesClaim.value.Coll? then Distinct(FilterMap(rolesClaim.value.items, RoleAuthorityOf))
    else []
  }

  /** An authority is read from a roles collection exactly when some element of it
      maps to that authority. */
  lemma ReadRoleAuthoritiesMembers(items: seq<Claim>, a: string)
    ensures NoDuplicates(ReadRoleAuthorities(Some(Coll(items))))
    ensures a in ReadRoleAuthorities(Some(Coll(items))) <==>
      exists i :: 0 <= i < |items| && RoleAuthorityOf(items[i]) == Some(a)
  {
    DistinctHasNoDuplicates(FilterMap(items, RoleAuthorityOf));
    DistinctSameElements(FilterMap(items, RoleAuthorityOf));
    FilterMapMembers(items, RoleAuthorityOf, a);
  }

  /** `extractRealmRoleAuthorities`: realm_access.roles only. */
  function RealmRoleAuthorities(jwt: Jwt): (r: seq<string>)
    ensures jwt.realmAccess.None? ==> r == []
    ensures jwt.realmAccess.Some? ==> r == ReadRoleAuthorities(Get(jwt.realmAccess.value, "roles"))
  {
    match jwt.realmAccess
    case None => []
    case Some(realmAccess) => ReadRoleAuthorities(Get(realmAccess, "roles"))
  }

  /** `extractClientRoleAuthorities`: resource_access[clientId].roles, where the entry
      must itself be an object. */
  function ClientRoleAuthorities(jwt: Jwt, clientId: Option<string>): (r: seq<string>)
    ensures jwt.resourceAccess.None? || clientId.None? || IsBlank(clientId.value) ==> r == []
    ensures r != [] ==>
      && jwt.resourceAccess.Some? && clientId.Some?
      && var entry := Get(jwt.resourceAccess.value, clientId.value);
      && entry.Some? && entry.value.Obj?
      && r == ReadRoleAuthorities(Get(entry.value.fields, "roles"))
  {
    if jwt.resourceAccess.None? || clientId.None? || IsBlank(clientId.value) then []
    else
      match Get(jwt.resourceAccess.value, clientId.value)
      case Some(Obj(clientMap)) => ReadRoleAuthorities(Get(clientMap, "roles"))
      case _ => []
  }

  /** The authorities the converter grants: scope authorities, then realm roles, then
      client roles, each kept once at its first occurrence. */
  function GrantedAuthorities(jwt: Jwt, clientId: Option<string>, scopeAuthorities: Option<seq<string>>): seq<string> {
    var scopes := if scopeAuthorities.Some? then scopeAuthorities.value else [];
    Distinct(scopes + RealmRoleAuthorities(jwt) + ClientRoleAuthorities(jwt, clientId))
  }

  /** The principal name: preferred_username when present and not blank, otherwise the
      subject. */
  function PrincipalName(jwt: Jwt): (name: Option<string>)
    ensures name == jwt.subject || (name.Some? && name == jwt.preferredUsername && !IsBlank(name.value))
    ensures jwt.preferredUsername.Some? && !IsBlank(jwt.preferredUsername.value) ==> name == jwt.preferredUsername
  {
    if jwt.preferredUsername.Some? && !IsBlank(jwt.preferredUsername.value) then jwt.preferredUsername
    else jwt.subject
  }

  /** `LinkedHashSet.addAll`: append each item not yet present. `seen` is everything
      offered to the set so far. */
  method AddAll(ghost seen: seq<string>, authorities: seq<string>, items: seq<string>) returns (r: seq<string>)
    requires authorities == Distinct(seen)
    ensures r == Distinct(seen + items)
  {
    r := authorities;
    var i := 0;
    assert seen + items[..0] == seen;
    while i < |items|
      invariant 0 <= i <= |items|
      invariant r == Distinct(seen + items[..i])
    {
      ghost var offered := seen + items[..i];
      DistinctSameElements(offered);
      DistinctSnoc(offered, items[i]);
      assert items[..i + 1] == items[..i] + [items[i]];
      assert seen + items[..i + 1] == offered + [items[i]];
      if items[i] !in r {
        r := r + [items[i]];
      }
      i := i + 1;
    }
    assert items[..i] == items;
  }

  /** `convert`: the resulting `JwtAuthenticationToken` is authenticated, carries the
      token, the granted authorities and the principal name. */
  method Convert(clientId: Option<string>, jwt: Jwt, scopeAuthorities: Option<seq<string>>) returns (auth: Authentication)
    ensures auth.kind == JwtBearer(jwt) && auth.authenticated
    ensures auth.name == PrincipalName(jwt)
    ensures auth.authorities == GrantedAuthorities(jwt, clientId, scopeAuthorities)
    ensures NoDuplicates(auth.authorities)
  {
    var scopes := if scopeAuthorities.Some? then scopeAuthorities.value else [];
    var authorities: seq<string> := [];
    if scopeAuthorities.Some? {
      authorities := AddAll([], authorities, scopes);
      assert [] + scopes == scopes;
    }
    var realm := RealmRoleAuthorities(jwt);
    authorities := AddAll(scopes, authorities, realm);
    var client := ClientRoleAuthorities(jwt, clientId);
    authorities := AddAll(scopes + realm, authorities, client);
    DistinctHasNoDuplicates(scopes + realm + client);
    auth := Authentication(JwtBearer(jwt), true, PrincipalName(jwt), authorities);
  }

  /** Every usable realm role string reaches the authorities as "ROLE_" + its trimmed,
      upper-cased text, whatever else the token holds. */
  lemma RealmRolesAreGranted(jwt: Jwt, clientId: Option<string>, scopeAuthorities: Option<seq<string>>, i: int)
    requires jwt.realmAccess.Some? && "roles" in jwt.realmAccess.value
    requires jwt.realmAccess.value["roles"].Coll?
    requires var items := jwt.realmAccess.value["roles"].items;
      0 <= i < |items| && items[i].Str? && !IsBlank(Trim(items[i].text))
    ensures RolePrefix + ToUpper(Trim(jwt.realmAccess.value["roles"].items[i].text)) in GrantedAuthorities(jwt, clientId, scopeAuthorities)
  {
    var items := jwt.realmAccess.value["roles"].items;
    var a := RoleAuthorityOf(items[i]).value;
    ReadRoleAuthoritiesMembers(items, a);
    assert Get(jwt.realmAccess.value, "roles") == Some(Coll(items));
    var realm := RealmRoleAuthorities(jwt);
    assert a in realm;
    var scopes := if scopeAuthorities.Some? then scopeAuthorities.value else [];
    var all := scopes + realm + ClientRoleAuthorities(jwt, clientId);
    assert a in all;
    DistinctSameElements(all);
  }

  /** Whatever is read from a roles claim is a role authority: prefixed once and
      entirely upper case. */
  lemma ReadRoleAuthoritiesAreUpperCase(claim: Option<Claim>, a: string)
    requires a in ReadRoleAuthorities(claim)
    ensures StartsWith(a, RolePrefix) && ToUpper(a) == a
  {
    ReadRoleAuthoritiesMembers(claim.value.items, a);
    var i :| 0 <= i < |claim.value.items| && RoleAuthorityOf(claim.value.items[i]) == Some(a);
    RoleAuthorityIsUpperCase(claim.value.items[i]);
  }

  /** Without scope authorities, everything granted is a role authority. */
  lemma GrantedComeFromClaims(jwt: Jwt, clientId: Option<string>, a: string)
    requires a in GrantedAuthorities(jwt, clientId, None)
    ensures StartsWith(a, RolePrefix) && ToUpper(a) == a
  {
    GrantedWithoutScopes(jwt, clientId, a);
    ClaimAuthoritiesAreUpperCase(jwt, clientId, a);
  }

  lemma GrantedWithoutScopes(jwt: Jwt, clientId: Option<string>, a: string)
    requires a in GrantedAuthorities(jwt, clientId, None)
    ensures a in RealmRoleAuthorities(jwt) + ClientRoleAuthorities(jwt, clientId)
  {
    InDistinctAfterNothing(RealmRoleAuthorities(jwt), ClientRoleAuthorities(jwt, clientId), a);
  }

  lemma InDistinctAfterNothing(realm: seq<string>, client: seq<string>, a: string)
    requires a in Distinct([] + realm + client)
    ensures a in realm + client
  {
    DistinctSameElements([] + realm + client);
    assert [] + realm + client == realm + client;
  }

  lemma ClaimAuthoritiesAreUpperCase(jwt: Jwt, clientId: Option<string>, a: string)
    requires a in RealmRoleAuthorities(jwt) + ClientRoleAuthorities(jwt, clientId)
    ensures StartsWith(a, RolePrefix) && ToUpper(a) == a
  {
    if a in RealmRoleAuthorities(jwt) {
      ReadRoleAuthoritiesAreUpperCase(Get(jwt.realmAccess.value, "roles"), a);
    } else {
      ClientRoleAuthoritiesAreUpperCase(jwt, clientId, a);
    }
  }

  lemma ClientRoleAuthoritiesAreUpperCase(jwt: Jwt, clientId: Option<string>, a: string)
    requires a in ClientRoleAuthorities(jwt, clientId)
    ensures StartsWith(a, RolePrefix) && ToUpper(a) == a
  {
    var entry := Get(jwt.resourceAccess.value, clientId.value);
    ReadRoleAuthoritiesAreUpperCase(Get(entry.value.fields, "roles"), a);
  }

  // ---------------------------------------------------------------------------------
  // SecurityContextCurrentUserProvider

  /** `isAuthenticated`: present, not anonymous, and marked authenticated. */
  predicate IsAuthenticated(auth: Option<Authentication>) {
    auth.Some? && !auth.value.kind.Anonymous? && auth.value.authenticated
  }

  /** `normalizeRole`: one leading "ROLE_" is stripped, case-sensitively; null becomes
      the empty string. */
  function NormalizeRole(authority: Option<string>): (r: string)
    ensures authority.None? ==> r == ""
    ensures authority.Some? && StartsWith(authority.value, RolePrefix) ==> RolePrefix + r == authority.value
    ensures authority.Some? && !StartsWith(authority.value, RolePrefix) ==> r == authority.value
  {
    match authority
    case None => ""
    case Some(a) =>
      if StartsWith(a, RolePrefix) then
        assert a == a[..|RolePrefix|] + a[|RolePrefix|..];
        a[|RolePrefix|..]
      else a
  }

  function NormalizeAll(authorities: seq<string>): (r: seq<string>)
    ensures |r| == |authorities|
    ensures forall i :: 0 <= i < |authorities| ==> r[i] == NormalizeRole(Some(authorities[i]))
  {
    if authorities == [] then [] else [NormalizeRole(Some(authorities[0]))] + NormalizeAll(authorities[1..])
  }

  /** `extractRoles`: the normalised authorities, each once, in first-occurrence order. */
  function ExtractRoles(auth: Authentication): (roles: seq<string>)
    ensures NoDuplicates(roles)
    ensures forall x :: x in roles <==> exists i :: 0 <= i < |auth.authorities| && NormalizeRole(Some(auth.authorities[i])) == x
  {
    var all := NormalizeAll(auth.authorities);
    DistinctSameElements(all);
    DistinctHasNoDuplicates(all);
    Distinct(all)
  }

  /** `valueOrFallback`: the value unless it is null or blank. */
  function ValueOrFallback(value: Option<string>, fallback: Option<string>): (r: Option<string>)
    ensures value.Some? && !IsBlank(value.value) ==> r == value
    ensures value.None? || IsBlank(value.value) ==> r == fallback
  {
    if value.None? || IsBlank(value.value) then fallback else value
  }

  function FromJwt(auth: Authentication, jwt: Jwt): UserAccount {
    UserAccount(ValueOrFallback(jwt.subject, auth.name), jwt.givenName, jwt.familyName, jwt.email, ExtractRoles(auth))
  }

  /** `currentUser`: the anonymous user unless authenticated; the token's claims for a
      JWT authentication (or a JWT principal); otherwise just the name and the roles. */
  function CurrentUser(auth: Option<Authentication>): (u: UserAccount)
    ensures !IsAuthenticated(auth) ==> u == AnonymousUser
    ensures IsAuthenticated(auth) ==> u.roles == ExtractRoles(auth.value)
    ensures IsAuthenticated(auth) && auth.value.kind.JwtBearer? ==>
      u.subject == ValueOrFallback(auth.value.kind.token.subject, auth.value.name) && u.email == auth.value.kind.token.email
    ensures IsAuthenticated(auth) && auth.value.kind.OtherToken? && auth.value.kind.principal.Some? ==>
      u.subject == ValueOrFallback(auth.value.kind.principal.value.subject, auth.value.name)
    ensures IsAuthenticated(auth) && auth.value.kind.OtherToken? && auth.value.kind.principal.None? ==>
      u.subject == auth.value.name && u.firstName.None? && u.lastName.None? && u.email.None?
  {
    if !IsAuthenticated(auth) then AnonymousUser
    else
      var a := auth.value;
      match a.kind
      case JwtBearer(jwt) => FromJwt(a, jwt)
      case OtherToken(Some(jwt)) => FromJwt(a, jwt)
      case OtherToken(None) => UserAccount(a.name, None, None, None, ExtractRoles(a))
  }

  /** A role the converter granted from a roles claim shows up in the current user's
      roles without its prefix: the converter and the provider agree on role names. */
  lemma ConvertedRoleReachesCurrentUser(auth: Authentication, role: string)
    requires auth.authenticated && !auth.kind.Anonymous?
    requires RolePrefix + role in auth.authorities
    ensures role in CurrentUser(Some(auth)).roles
  {
    var i :| 0 <= i < |auth.authorities| && auth.authorities[i] == RolePrefix + role;
    assert StartsWith(auth.authorities[i], RolePrefix);
    assert NormalizeRole(Some(auth.authorities[i])) == role;
  }

  // ---------------------------------------------------------------------------------
  // SecurityAuthorizationService

  /** The authority a role name is compared with: prefixed with "ROLE_" unless it
      already starts with it. */
  function RoleAuthority(role: string): (a: string)
    ensures StartsWith(a, RolePrefix)
    ensures StartsWith(role, RolePrefix) ==> a == role
    ensures !StartsWith(role, RolePrefix) ==> a[|RolePrefix|..] == role
  {
    if StartsWith(role, RolePrefix) then role
    else
      var a := RolePrefix + role;
      assert a[|RolePrefix|..] == role;
      a
  }

  predicate AuthorityMatches(authority: string, role: string) {
    EqualsIgnoreCase(authority, RoleAuthority(role)) || EqualsIgnoreCase(authority, role)
  }

  /** The `anyMatch` over the authorities. */
  function AnyAuthorityMatches(authorities: seq<string>, role: string): (b: bool)
    ensures b <==> exists i :: 0 <= i < |authorities| && AuthorityMatches(authorities[i], role)
  {
    if authorities == [] then false
    else AuthorityMatches(authorities[0], role) || AnyAuthorityMatches(authorities[1..], role)
  }

  /** `hasRole`. */
  function HasRole(ctx: SecurityContext, role: Option<string>): (b: bool)
    ensures b ==> ctx.securityEnabled && role.Some? && !IsBlank(role.value) && IsAuthenticated(ctx.authentication)
    ensures b <==> (ctx.securityEnabled && role.Some? && !IsBlank(role.value) && IsAuthenticated(ctx.authentication)
      && exists i :: 0 <= i < |ctx.authentication.value.authorities| && AuthorityMatches(ctx.authentication.value.authorities[i], role.value))
  {
    if !ctx.securityEnabled then false
    else if role.None? || IsBlank(role.value) then false
    else if !IsAuthenticated(ctx.authentication) then false
    else AnyAuthorityMatches(ctx.authentication.value.authorities, role.value)
  }

  /** `requireStaff`. */
  function RequireStaff(ctx: SecurityContext): (o: Outcome)
    ensures o.Pass? <==> !ctx.securityEnabled || HasRole(ctx, Some(StaffRole))
    ensures o.Fail? ==> o.error == Forbidden("Staff role required")
  {
    if !ctx.securityEnabled then Pass
    else if !HasRole(ctx, Some(StaffRole)) then Fail(Forbidden("Staff role required"))
    else Pass
  }

  /** `requireOwnerOrStaff`: staff pass whoever owns the resource; anyone else must be
      its owner, compared by exact equality with the current user's subject. */
  function RequireOwnerOrStaff(ctx: SecurityContext, ownerUserId: Option<string>): (o: Outcome)
    ensures o.Pass? <==> (!ctx.securityEnabled || HasRole(ctx, Some(StaffRole))
      || (ownerUserId.Some? && CurrentUser(ctx.authentication).subject == ownerUserId))
    ensures o.Fail? ==> o.error == Forbidden("Access denied")
  {
    if !ctx.securityEnabled then Pass
    else if HasRole(ctx, Some(StaffRole)) then Pass
    else
      var currentUserId := CurrentUser(ctx.authentication).subject;
      if ownerUserId.None? || Some(ownerUserId.value) != currentUserId then Fail(Forbidden("Access denied"))
      else Pass
  }

  /** With security switched off no role is held and no guard refuses. */
  lemma DisabledSecurityAllowsEverything(auth: Option<Authentication>, role: Option<string>, owner: Option<string>)
    ensures var ctx := SecurityContext(false, auth);
      !HasRole(ctx, role) && RequireStaff(ctx).Pass? && RequireOwnerOrStaff(ctx, owner).Pass?
  {
  }

  /** The caller who is not staff and not signed in is refused by both guards, unless
      the resource belongs to "anonymous". */
  lemma AnonymousIsRefused(auth: Option<Authentication>, owner: Option<string>)
    requires !IsAuthenticated(auth)
    ensures var ctx := SecurityContext(true, auth);
      && RequireStaff(ctx) == Fail(Forbidden("Staff role required"))
      && (RequireOwnerOrStaff(ctx, owner).Pass? <==> owner == Some("anonymous"))
  {
  }

  /** The "ROLE_" prefix is added at most once. */
  lemma RoleAuthorityIdempotent(role: string)
    ensures RoleAuthority(RoleAuthority(role)) == RoleAuthority(role)
  {
  }

  lemma {:induction false} ToUpperAppend(a: string, b: string)
    ensures ToUpper(a + b) == ToUpper(a) + ToUpper(b)
  {
    var whole := ToUpper(a + b);
    var parts := ToUpper(a) + ToUpper(b);
    assert |whole| == |parts|;
    forall i | 0 <= i < |whole| ensures whole[i] == parts[i] {
      if i < |a| {
        assert (a + b)[i] == a[i];
      } else {
        assert (a + b)[i] == b[i - |a|];
      }
    }
    assert whole == parts;
  }

  /** `hasRole` ignores case: two spellings of a role name that differ only in case,
      and agree on whether they carry the prefix, decide the same. */
  lemma HasRoleIgnoresCase(ctx: SecurityContext, r1: string, r2: string)
    requires EqualsIgnoreCase(r1, r2)
    requires StartsWith(r1, RolePrefix) == StartsWith(r2, RolePrefix)
    ensures HasRole(ctx, Some(r1)) == HasRole(ctx, Some(r2))
  {
    CaseVariantsAreEquallyBlank(r1, r2);
    if ctx.authentication.Some? {
      forall a | a in ctx.authentication.value.authorities
        ensures AuthorityMatches(a, r1) <==> AuthorityMatches(a, r2)
      {
        MatchIgnoresRoleCase(a, r1, r2);
      }
    }
  }

  lemma CaseVariantsAreEquallyBlank(r1: string, r2: string)
    requires EqualsIgnoreCase(r1, r2)
    ensures IsBlank(r1) == IsBlank(r2)
  {
    forall i | 0 <= i < |r1| ensures IsWhitespace(r1[i]) <==> IsWhitespace(r2[i]) {
      assert CharEqualsIgnoreCase(r1[i], r2[i]);
    }
  }

  /** One authority matches two spellings of a role alike when they differ only in
      case and agree on carrying the prefix. */
  lemma MatchIgnoresRoleCase(a: string, r1: string, r2: string)
    requires EqualsIgnoreCase(r1, r2)
    requires StartsWith(r1, RolePrefix) == StartsWith(r2, RolePrefix)
    ensures AuthorityMatches(a, r1) <==> AuthorityMatches(a, r2)
  {
    EqualsIgnoreCaseIsUpperEquality(r1, r2);
    ToUpperAppend(RolePrefix, r1);
    ToUpperAppend(RolePrefix, r2);
    EqualsIgnoreCaseIsUpperEquality(RoleAuthority(r1), RoleAuthority(r2));
    EqualsIgnoreCaseIsUpperEquality(a, r1);
    EqualsIgnoreCaseIsUpperEquality(a, r2);
    EqualsIgnoreCaseIsUpperEquality(a, RoleAuthority(r1));
    EqualsIgnoreCaseIsUpperEquality(a, RoleAuthority(r2));
  }

  /** A user whose realm roles include a usable string is staff exactly when that
      string, trimmed, is "staff" in some case: the converter and `hasRole` agree. */
  lemma ConvertedStaffHasRole(jwt: Jwt, clientId: Option<string>, scopes: Option<seq<string>>, auth: Authentication, i: int)
    requires auth.kind == JwtBearer(jwt) && auth.authenticated
    requires auth.authorities == GrantedAuthorities(jwt, clientId, scopes)
    requires jwt.realmAccess.Some? && "roles" in jwt.realmAccess.value
    requires jwt.realmAccess.value["roles"].Coll?
    requires var items := jwt.realmAccess.value["roles"].items;
      0 <= i < |items| && items[i].Str? && EqualsIgnoreCase(Trim(items[i].text), StaffRole)
    ensures HasRole(SecurityContext(true, Some(auth)), Some(StaffRole))
  {
    var text := Trim(jwt.realmAccess.value["roles"].items[i].text);
    StaffSpelling(text);
    RealmRolesAreGranted(jwt, clientId, scopes, i);
    var a := RolePrefix + StaffRole;
    assert a in auth.authorities;
    var k :| 0 <= k < |auth.authorities| && auth.authorities[k] == a;
    HasRoleWhenGranted(SecurityContext(true, Some(auth)), StaffRole, k);
  }

  /** The matching step of `hasRole` once its guards have passed. */
  lemma HasRoleWhenGranted(ctx: SecurityContext, role: string, k: int)
    requires ctx.securityEnabled && IsAuthenticated(ctx.authentication) && role == StaffRole
    requires 0 <= k < |ctx.authentication.value.authorities|
    requires ctx.authentication.value.authorities[k] == RolePrefix + role
    ensures HasRole(ctx, Some(role))
  {
    assert StaffRole[..|RolePrefix|][0] != RolePrefix[0];
    assert !IsWhitespace(StaffRole[0]);
    assert RoleAuthority(role) == RolePrefix + role;
    assert AuthorityMatches(ctx.authentication.value.authorities[k], role);
  }

  lemma StaffSpelling(text: string)
    requires EqualsIgnoreCase(text, StaffRole)
    ensures !IsBlank(text) && ToUpper(text) == StaffRole
  {
    assert CharEqualsIgnoreCase(text[0], StaffRole[0]);
    assert !IsWhitespace(text[0]);
    EqualsIgnoreCaseIsUpperEquality(text, StaffRole);
    assert ToUpper(StaffRole) == StaffRole;
  }
}
