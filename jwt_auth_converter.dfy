/** Turning a decoded JWT into an authentication token: the authorities are
    those of the default scope converter together with the client roles found
    under `resource_access.<resourceId>.roles`, each prefixed with "ROLE_";
    the principal name is the claim named by the configured attribute. */
module JwtAuth {
  import opened Http

  const ROLE_PREFIX: string := "ROLE_"
  const RESOURCE_ACCESS: string := "resource_access"
  const ROLES: string := "roles"

  /** A decoded JSON claim value; numbers and booleans are both `Scalar`. */
  datatype ClaimValue =
    | Object(fields: map<string, ClaimValue>)
    | Array(items: seq<ClaimValue>)
    | Text(text: string)
    | Null
    | Scalar

  datatype Jwt = Jwt(claims: map<string, ClaimValue>)

  /** The converter's configuration, read once from the environment. */
  datatype AuthConverter = AuthConverter(principleAttribute: string, resourceId: string)

  /** The resulting `JwtAuthenticationToken`. */
  datatype AuthenticationToken = AuthenticationToken(jwt: Jwt, authorities: set<string>, name: Option<string>)

  /** A role element the lambda's cast to String lets through: a string,
      or null (a cast of null succeeds). */
  predicate IsRole(v: ClaimValue)
  {
    v.Text? || v.Null?
  }

  /** What the string template `"$role"` renders for a role element. */
  function RoleName(v: ClaimValue): string
    requires IsRole(v)
  {
    if v.Text? then v.text else "null"
  }

  /** `roles.map { role -> "ROLE_$role" }.toSet()`; `None` when an element
      is neither a string nor null (the lambda's cast to String throws). */
  function RoleAuthorities(items: seq<ClaimValue>): (r: Option<set<string>>)
    ensures r.Some? ==> |r.value| <= |items|
  {
    if items == [] then Some({})
    else if !IsRole(items[0]) then None
    else
      match RoleAuthorities(items[1..])
      case None => None
      case Some(rest) => Some({ROLE_PREFIX + RoleName(items[0])} + rest)
  }

  /** `extractResourceRoles`. A missing `resource_access` claim, a missing or
      non-object entry for the resource, or a missing or non-array `roles`
      all give the empty set. `None` is a thrown conversion error: the claim
      accessor rejects a `resource_access` claim that is not an object, and a
      role that is neither a string nor null fails its cast. */
  function ExtractResourceRoles(conv: AuthConverter, jwt: Jwt): (r: Option<set<string>>)
    ensures RESOURCE_ACCESS !in jwt.claims ==> r == Some({})
    ensures RESOURCE_ACCESS in jwt.claims && !jwt.claims[RESOURCE_ACCESS].Object? ==> r == None
    ensures RESOURCE_ACCESS in jwt.claims && jwt.claims[RESOURCE_ACCESS].Object? ==>
      var access := jwt.claims[RESOURCE_ACCESS].fields;
      (conv.resourceId !in access || !access[conv.resourceId].Object?) ==> r == Some({})
    ensures RESOURCE_ACCESS in jwt.claims && jwt.claims[RESOURCE_ACCESS].Object? ==>
      var access := jwt.claims[RESOURCE_ACCESS].fields;
      conv.resourceId in access && access[conv.resourceId].Object? ==>
        var resource := access[conv.resourceId].fields;
        && ((ROLES !in resource || !resource[ROLES].Array?) ==> r == Some({}))
        && (ROLES in resource && resource[ROLES].Array? ==> r == RoleAuthorities(resource[ROLES].items))
  {
    if RESOURCE_ACCESS !in jwt.claims then Some({})
    else if !jwt.claims[RESOURCE_ACCESS].Object? then None
    else
      var access := jwt.claims[RESOURCE_ACCESS].fields;
      if conv.resourceId !in access || !access[conv.resourceId].Object? then Some({})
      else
        var resource := access[conv.resourceId].fields;
        if ROLES !in resource || !resource[ROLES].Array? then Some({})
        else RoleAuthorities(resource[ROLES].items)
  }

  /** The token's `resource_access` claim is an object whose entry for the
      configured resource is the object `resource`. */
  predicate HasResourceEntry(conv: AuthConverter, jwt: Jwt, resource: map<string, ClaimValue>)
  {
    && RESOURCE_ACCESS in jwt.claims
    && jwt.claims[RESOURCE_ACCESS].Object?
    && conv.resourceId in jwt.claims[RESOURCE_ACCESS].fields
    && jwt.claims[RESOURCE_ACCESS].fields[conv.resourceId] == Object(resource)
  }

  /** The roles convert exactly when each is a string or null. */
  lemma {:induction false} RoleAuthoritiesDefined(items: seq<ClaimValue>)
    ensures RoleAuthorities(items).Some? <==> forall i :: 0 <= i < |items| ==> IsRole(items[i])
  {
    if items != [] {
      var tail := items[1..];
      RoleAuthoritiesDefined(tail);
      assert forall i :: 0 <= i < |tail| ==> tail[i] == items[i + 1];
    }
  }

  /** The roles convert exactly when each is a string or null, and then
      each role contributes "ROLE_" followed by its rendering, and nothing
      else is added. */
  lemma {:induction false} RoleAuthoritiesMembers(items: seq<ClaimValue>)
    ensures RoleAuthorities(items).Some? <==> forall i :: 0 <= i < |items| ==> IsRole(items[i])
    ensures RoleAuthorities(items).Some? ==> forall a :: a in RoleAuthorities(items).value <==>
      exists i :: 0 <= i < |items| && IsRole(items[i]) && a == ROLE_PREFIX + RoleName(items[i])
  {
    RoleAuthoritiesDefined(items);
    if items != [] && RoleAuthorities(items).Some? {
      var tail := items[1..];
      RoleAuthoritiesMembers(tail);
      var r := RoleAuthorities(items).value;
      forall a | a in r
        ensures exists i :: 0 <= i < |items| && IsRole(items[i]) && a == ROLE_PREFIX + RoleName(items[i])
      {
        if a != ROLE_PREFIX + RoleName(items[0]) {
          var j :| 0 <= j < |tail| && IsRole(tail[j]) && a == ROLE_PREFIX + RoleName(tail[j]);
          assert items[j + 1] == tail[j];
        }
      }
      forall a | exists i :: 0 <= i < |items| && IsRole(items[i]) && a == ROLE_PREFIX + RoleName(items[i])
        ensures a in r
      {
        var i :| 0 <= i < |items| && IsRole(items[i]) && a == ROLE_PREFIX + RoleName(items[i]);
        if i > 0 {
          assert tail[i - 1] == items[i];
        }
      }
    }
  }

  /** A resource entry without a `roles` array grants no role, whatever
      else the token holds. */
  lemma MissingRolesGiveNothing(conv: AuthConverter, jwt: Jwt, resource: map<string, ClaimValue>)
    requires HasResourceEntry(conv, jwt, resource)
    requires ROLES !in resource || !resource[ROLES].Array?
    ensures ExtractResourceRoles(conv, jwt) == Some({})
  {
  }

  /** Each string role r yields exactly the authority "ROLE_" + r, and every
      authority comes from one of the roles, whatever else the token holds. */
  lemma RolesArePrefixed(conv: AuthConverter, jwt: Jwt, resource: map<string, ClaimValue>, roles: seq<string>)
    requires HasResourceEntry(conv, jwt, resource)
    requires ROLES in resource
    requires resource[ROLES] == Array(seq(|roles|, i requires 0 <= i < |roles| => Text(roles[i])))
    ensures var r := ExtractResourceRoles(conv, jwt);
      && r.Some?
      && forall a :: a in r.value <==> exists role :: role in roles && a == ROLE_PREFIX + role
  {
    var items := resource[ROLES].items;
    var r := ExtractResourceRoles(conv, jwt);
    assert r == RoleAuthorities(items);
    RoleAuthoritiesMembers(items);
    forall a | a in r.value ensures exists role :: role in roles && a == ROLE_PREFIX + role {
      var i :| 0 <= i < |items| && IsRole(items[i]) && a == ROLE_PREFIX + RoleName(items[i]);
      assert roles[i] in roles;
    }
    forall a | exists role :: role in roles && a == ROLE_PREFIX + role ensures a in r.value {
      var role :| role in roles && a == ROLE_PREFIX + role;
      var i :| 0 <= i < |roles| && roles[i] == role;
      assert RoleName(items[i]) == role;
    }
  }

  /** Distinct roles give distinct authorities, so the prefixing loses nothing. */
  lemma RolePrefixInjective(a: string, b: string)
    requires ROLE_PREFIX + a == ROLE_PREFIX + b
    ensures a == b
  {
    assert a == (ROLE_PREFIX + a)[|ROLE_PREFIX|..];
    assert b == (ROLE_PREFIX + b)[|ROLE_PREFIX|..];
  }

  /** Appending one claim value to the roles adds its authority, or makes
      the conversion fail when it is neither a string nor null. */
  lemma {:induction false} RoleAuthoritiesSnoc(items: seq<ClaimValue>, x: ClaimValue)
    ensures RoleAuthorities(items + [x]) ==
      if RoleAuthorities(items).Some? && IsRole(x) then Some(RoleAuthorities(items).value + {ROLE_PREFIX + RoleName(x)})
      else None
  {
    if items == [] {
      assert items + [x] == [x];
      assert [x][1..] == [];
      if IsRole(x) {
        assert {ROLE_PREFIX + RoleName(x)} + {} == {} + {ROLE_PREFIX + RoleName(x)};
      }
    } else {
      var longer := items + [x];
      assert longer[0] == items[0];
      assert longer[1..] == items[1..] + [x];
      RoleAuthoritiesSnoc(items[1..], x);
      if IsRole(items[0]) && RoleAuthorities(items[1..]).Some? && IsRole(x) {
        var rest := RoleAuthorities(items[1..]).value;
        var first, last := ROLE_PREFIX + RoleName(items[0]), ROLE_PREFIX + RoleName(x);
        assert {first} + (rest + {last}) == ({first} + rest) + {last};
        assert RoleAuthorities(longer) == Some({ROLE_PREFIX + RoleName(items[0])} + (rest + {ROLE_PREFIX + RoleName(x)}));
        assert RoleAuthorities(items) == Some({ROLE_PREFIX + RoleName(items[0])} + rest);
      }
    }
  }

  /** Repeating a role already listed changes nothing: the result is a set. */
  lemma DuplicateRolesCollapse(items: seq<ClaimValue>, k: nat)
    requires k < |items|
    ensures RoleAuthorities(items + [items[k]]) == RoleAuthorities(items)
  {
    var x := items[k];
    RoleAuthoritiesSnoc(items, x);
    var before := RoleAuthorities(items);
    if before.Some? {
      RoleAuthoritiesMembers(items);
      assert IsRole(x);
      var a := ROLE_PREFIX + RoleName(x);
      assert exists i :: 0 <= i < |items| && IsRole(items[i]) && a == ROLE_PREFIX + RoleName(items[i]) by {
        assert IsRole(items[k]) && a == ROLE_PREFIX + RoleName(items[k]);
      }
      assert a in before.value;
      assert before.value + {a} == before.value;
    }
  }

  /** `getPrincipleClaimName`: the claim named by the configured attribute,
      as a string; absent when the claim is. `asString` is the claim
      accessor's conversion of a non-string value. */
  function PrincipleClaimName(conv: AuthConverter, jwt: Jwt, asString: ClaimValue -> string): (r: Option<string>)
    ensures r.None? <==> conv.principleAttribute !in jwt.claims
    ensures conv.principleAttribute in jwt.claims && jwt.claims[conv.principleAttribute].Text? ==>
      r == Some(jwt.claims[conv.principleAttribute].text)
  {
    if conv.principleAttribute !in jwt.claims then None
    else
      var value := jwt.claims[conv.principleAttribute];
      Some(if value.Text? then value.text else asString(value))
  }

  /** `convert`: the default converter's authorities (none when it yields
      null) together with the resource roles, and the principal name. `None`
      when extracting the roles throws. */
  function Convert(
    conv: AuthConverter, jwt: Jwt,
    defaultAuthorities: Jwt -> Option<set<string>>,
    asString: ClaimValue -> string): (r: Option<AuthenticationToken>)
    ensures r.Some? <==> ExtractResourceRoles(conv, jwt).Some?
    ensures r.Some? ==>
      && r.value.jwt == jwt
      && r.value.name == PrincipleClaimName(conv, jwt, asString)
      && forall a :: a in r.value.authorities <==>
           (defaultAuthorities(jwt).Some? && a in defaultAuthorities(jwt).value)
           || a in ExtractResourceRoles(conv, jwt).value
  {
    var defaults := match defaultAuthorities(jwt) case Some(s) => s case None => {};
    match ExtractResourceRoles(conv, jwt)
    case None => None
    case Some(roles) => Some(AuthenticationToken(jwt, defaults + roles, PrincipleClaimName(conv, jwt, asString)))
  }

  /** Without a `resource_access` claim the authorities are exactly the
      default converter's, or none when it yields null. */
  lemma NoResourceAccessKeepsDefaults(
    conv: AuthConverter, jwt: Jwt,
    defaultAuthorities: Jwt -> Option<set<string>>,
    asString: ClaimValue -> string)
    requires RESOURCE_ACCESS !in jwt.claims
    ensures Convert(conv, jwt, defaultAuthorities, asString).Some?
    ensures Convert(conv, jwt, defaultAuthorities, asString).value.authorities ==
      match defaultAuthorities(jwt) case Some(s) => s case None => {}
  {
  }
}
