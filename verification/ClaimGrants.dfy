/** Token claims as decoded from JSON. */
module ClaimValues {

  /** A decoded JSON value; kinds the claim readers do not look into are Other. */
  datatype Value = Str(text: string) | List(items: seq<Value>) | Obj(fields: map<string, Value>) | Other(raw: string)

  type Claims = map<string, Value>

  /** The string at a key, or "" when the key is missing or holds something else. */
  function StringAt(claims: Claims, key: string): string {
    if key in claims && claims[key].Str? then claims[key].text else ""
  }

  /** The object at a key, or the empty one. */
  function ObjectAt(claims: Claims, key: string): Claims {
    if key in claims && claims[key].Obj? then claims[key].fields else map[]
  }
}

/** The permissions a token's claims grant: direct grants, role grants and OAuth2 scopes, merged. */
module ClaimGrants {
  import opened Wrappers
  import opened Strings
  import opened ClaimValues
  import opened Permissions
  import opened PermissionSets

  type RoleMap = map<string, seq<Permission>>

  /** What one string grants: its permission, or nothing if it is malformed. */
  function GrantOf(text: string): seq<Permission> {
    match Parse(text) case Success(p) => [p] case Failure(_) => []
  }

  /** The grants of the string entries of a list. */
  function DirectGrants(items: seq<Value>): seq<Permission> {
    if items == [] then []
    else
      var last := items[|items| - 1];
      DirectGrants(items[..|items| - 1]) + (if last.Str? then GrantOf(last.text) else [])
  }

  lemma DirectGrantsNext(items: seq<Value>, i: nat)
    requires i < |items|
    ensures DirectGrants(items[..i + 1]) ==
            DirectGrants(items[..i]) + if items[i].Str? then GrantOf(items[i].text) else []
  {
    assert items[..i + 1][..i] == items[..i];
  }

  function RoleGrants(items: seq<Value>, roles: RoleMap): seq<Permission> {
    if items == [] then []
    else
      RoleGrants(items[..|items| - 1], roles) + GrantsOfRole(items[|items| - 1], roles)
  }

  /** What one entry of the roles claim grants: the permissions of a known role. */
  function GrantsOfRole(item: Value, roles: RoleMap): seq<Permission> {
    if item.Str? && item.text in roles then roles[item.text] else []
  }

  lemma RoleGrantsNext(source: seq<Permission>, items: seq<Value>, roles: RoleMap, i: nat)
    requires i < |items|
    ensures source + RoleGrants(items[..i + 1], roles) ==
            source + RoleGrants(items[..i], roles) + GrantsOfRole(items[i], roles)
  {
    assert items[..i + 1][..i] == items[..i];
  }

  function TokenGrants(tokens: seq<string>): seq<Permission> {
    if tokens == [] then []
    else TokenGrants(tokens[..|tokens| - 1]) + GrantOf(tokens[|tokens| - 1])
  }

  function ListClaim(claims: Claims, name: string): seq<Value> {
    if name in claims && claims[name].List? then claims[name].items else []
  }

  function ScopeClaim(claims: Claims): string {
    StringAt(claims, "scope")
  }

  /** Everything the claims grant, in source order and with repetitions. */
  function Granted(claims: Claims, roles: RoleMap): seq<Permission> {
    DirectGrants(ListClaim(claims, "permissions")) +
    RoleGrants(ListClaim(claims, "roles"), roles) +
    TokenGrants(Fields(ScopeClaim(claims)))
  }

  method ParseScopePermissions(scope: string) returns (result: seq<Permission>)
    ensures result == TokenGrants(Fields(scope))
  {
    result := [];
    if scope == "" {
      return;
    }
    var tokens := Fields(scope);
    var i := 0;
    while i < |tokens|
      invariant 0 <= i <= |tokens|
      invariant result == TokenGrants(tokens[..i])
    {
      assert tokens[..i + 1][..i] == tokens[..i];
      var p := Parse(tokens[i]);
      if p.Success? {
        result := result + [p.value];
      }
      i := i + 1;
    }
    assert tokens[..i] == tokens;
  }

  /** addPerm: append unless seen. */
  method AddPerm(seen: set<Permission>, result: seq<Permission>, p: Permission, ghost source: seq<Permission>)
    returns (seen': set<Permission>, result': seq<Permission>)
    requires result == Dedup(source) && seen == set q | q in result
    ensures result' == Dedup(source + [p]) && seen' == set q | q in result'
  {
    seen', result' := seen, result;
    assert (source + [p])[..|source|] == source;
    if p !in seen {
      seen', result' := seen + {p}, result + [p];
    }
  }

  /** Several additions in a row. */
  method AddAll(seen: set<Permission>, result: seq<Permission>, ps: seq<Permission>, ghost source: seq<Permission>)
    returns (seen': set<Permission>, result': seq<Permission>)
    requires result == Dedup(source) && seen == set q | q in result
    ensures result' == Dedup(source + ps) && seen' == set q | q in result'
  {
    seen', result' := seen, result;
    var j := 0;
    assert source + ps[..0] == source;
    while j < |ps|
      invariant 0 <= j <= |ps|
      invariant result' == Dedup(source + ps[..j]) && seen' == set q | q in result'
    {
      seen', result' := AddPerm(seen', result', ps[j], source + ps[..j]);
      assert source + ps[..j] + [ps[j]] == source + ps[..j + 1];
      j := j + 1;
    }
    assert ps[..j] == ps;
  }

  method AddDirect(items: seq<Value>) returns (seen: set<Permission>, result: seq<Permission>)
    ensures result == Dedup(DirectGrants(items)) && seen == set q | q in result
  {
    seen, result := {}, [];
    var i := 0;
    while i < |items|
      invariant 0 <= i <= |items|
      invariant result == Dedup(DirectGrants(items[..i])) && seen == set q | q in result
    {
      DirectGrantsNext(items, i);
      assert DirectGrants(items[..i]) + [] == DirectGrants(items[..i]);
      if items[i].Str? {
        var p := Parse(items[i].text);
        if p.Success? {
          seen, result := AddPerm(seen, result, p.value, DirectGrants(items[..i]));
        }
      }
      i := i + 1;
    }
    assert items[..i] == items;
  }

  method AddRoles(seen: set<Permission>, result: seq<Permission>, items: seq<Value>, roles: RoleMap,
                  ghost source: seq<Permission>)
    returns (seen': set<Permission>, result': seq<Permission>)
    requires result == Dedup(source) && seen == set q | q in result
    ensures result' == Dedup(source + RoleGrants(items, roles)) && seen' == set q | q in result'
  {
    seen', result' := seen, result;
    var i := 0;
    assert source + [] == source;
    while i < |items|
      invariant 0 <= i <= |items|
      invariant result' == Dedup(source + RoleGrants(items[..i], roles)) && seen' == set q | q in result'
    {
      RoleGrantsNext(source, items, roles, i);
      ghost var sofar := source + RoleGrants(items[..i], roles);
      if items[i].Str? && items[i].text in roles {
        seen', result' := AddAll(seen', result', roles[items[i].text], sofar);
      } else {
        assert sofar + [] == sofar;
      }
      i := i + 1;
    }
    assert items[..i] == items;
  }

  /** ClaimsToPermissions: the first-occurrence-order deduplication of everything granted. */
  method ClaimsToPermissions(claims: Claims, roles: RoleMap) returns (result: seq<Permission>)
    ensures result == Dedup(Granted(claims, roles))
  {
    if |claims| == 0 {
      return [];
    }
    var seen: set<Permission>;
    seen, result := AddDirect(ListClaim(claims, "permissions"));
    ghost var source := DirectGrants(ListClaim(claims, "permissions"));
    seen, result := AddRoles(seen, result, ListClaim(claims, "roles"), roles, source);
    source := source + RoleGrants(ListClaim(claims, "roles"), roles);
    var scoped := ParseScopePermissions(ScopeClaim(claims));
    seen, result := AddAll(seen, result, scoped, source);
  }

  /** The list ClaimsToPermissions returns is kept as it is by NewPermissionSet, and the index, a scan of
      the list and a scan of the undeduplicated sources all give the same answer to every request. */
  lemma AllReadersAgree(claims: Claims, roles: RoleMap, ps: PermissionSet, r: string, a: string, s: string)
    requires Indexes(ps, Dedup(Granted(claims, roles)))
    ensures ps.all == Dedup(Granted(claims, roles))
    ensures ps.Match(r, a, s) <==> Grants(Dedup(Granted(claims, roles)), r, a, s)
    ensures ps.Match(r, a, s) <==> Grants(Granted(claims, roles), r, a, s)
  {
    var sources := Granted(claims, roles);
    var list := Dedup(sources);
    DedupSpec(sources);
    DedupOfDistinct(list);
    MatchIsAScan(ps, list, r, a, s);
  }

  /** Claim by claim, what grants a permission: a string of the "permissions" list that parses to it, a
      known role in the "roles" list that has it, or a word of the "scope" string that parses to it. */
  predicate DirectlyGranted(claims: Claims, q: Permission) {
    "permissions" in claims && claims["permissions"].List? &&
    exists v :: v in claims["permissions"].items && v.Str? && Parse(v.text) == Success(q)
  }

  predicate RoleGranted(claims: Claims, roles: RoleMap, q: Permission) {
    "roles" in claims && claims["roles"].List? &&
    exists v :: v in claims["roles"].items && v.Str? && v.text in roles && q in roles[v.text]
  }

  predicate ScopeGranted(claims: Claims, q: Permission) {
    "scope" in claims && claims["scope"].Str? &&
    exists w :: w in Fields(claims["scope"].text) && Parse(w) == Success(q)
  }

  lemma {:induction false} DirectMembers(items: seq<Value>, q: Permission)
    ensures q in DirectGrants(items) <==> exists v :: v in items && v.Str? && Parse(v.text) == Success(q)
  {
    if items != [] {
      var front, last := items[..|items| - 1], items[|items| - 1];
      DirectMembers(front, q);
      assert items == front + [last];
    }
  }

  lemma {:induction false} RoleMembers(items: seq<Value>, roles: RoleMap, q: Permission)
    ensures q in RoleGrants(items, roles) <==>
            exists v :: v in items && v.Str? && v.text in roles && q in roles[v.text]
  {
    if items != [] {
      var front, last := items[..|items| - 1], items[|items| - 1];
      RoleMembers(front, roles, q);
      assert items == front + [last];
    }
  }

  lemma {:induction false} TokenMembers(tokens: seq<string>, q: Permission)
    ensures q in TokenGrants(tokens) <==> exists w :: w in tokens && Parse(w) == Success(q)
  {
    if tokens != [] {
      var front, last := tokens[..|tokens| - 1], tokens[|tokens| - 1];
      TokenMembers(front, q);
      assert tokens == front + [last];
    }
  }

  lemma SourcesAre(claims: Claims, roles: RoleMap, q: Permission)
    ensures q in DirectGrants(ListClaim(claims, "permissions")) <==> DirectlyGranted(claims, q)
    ensures q in RoleGrants(ListClaim(claims, "roles"), roles) <==> RoleGranted(claims, roles, q)
    ensures q in TokenGrants(Fields(ScopeClaim(claims))) <==> ScopeGranted(claims, q)
  {
    DirectMembers(ListClaim(claims, "permissions"), q);
    RoleMembers(ListClaim(claims, "roles"), roles, q);
    TokenMembers(Fields(ScopeClaim(claims)), q);
    assert Fields("") == [];
  }

  /** The list ClaimsToPermissions returns holds exactly the permissions some claim grants, each once; those
      granted directly come first, then those only roles grant, then those only the scope grants. */
  lemma GrantedExactly(claims: Claims, roles: RoleMap)
    ensures var list := Dedup(Granted(claims, roles));
            && (forall q :: q in list <==>
                  DirectlyGranted(claims, q) || RoleGranted(claims, roles, q) || ScopeGranted(claims, q))
            && (forall i, j :: 0 <= i < j < |list| ==> list[i] != list[j])
            && (forall i, j :: 0 <= i < j < |list| && DirectlyGranted(claims, list[j]) ==>
                  DirectlyGranted(claims, list[i]))
            && (forall i, j :: 0 <= i < j < |list| && RoleGranted(claims, roles, list[j]) ==>
                  DirectlyGranted(claims, list[i]) || RoleGranted(claims, roles, list[i]))
  {
    var direct, byRole := DirectGrants(ListClaim(claims, "permissions")), RoleGrants(ListClaim(claims, "roles"), roles);
    var byScope := TokenGrants(Fields(ScopeClaim(claims)));
    var list := Dedup(Granted(claims, roles));
    DedupSpec(Granted(claims, roles));
    forall q ensures (q in direct <==> DirectlyGranted(claims, q)) && (q in byRole <==> RoleGranted(claims, roles, q))
      ensures q in byScope <==> ScopeGranted(claims, q)
    {
      SourcesAre(claims, roles, q);
    }
    assert Granted(claims, roles) == direct + (byRole + byScope);
    forall i, j | 0 <= i < j < |list|
      ensures list[j] in direct ==> list[i] in direct
      ensures list[j] in byRole ==> list[i] in direct || list[i] in byRole
    {
      assert list[i] in list && list[j] in list;
      if list[j] in direct {
        EarlierStaysIn(direct, byRole + byScope, list[i], list[j]);
      }
      if list[j] in byRole {
        assert list[j] in direct + byRole;
        EarlierStaysIn(direct + byRole, byScope, list[i], list[j]);
        assert list[i] in direct + byRole;
      }
    }
  }

  lemma {:induction false} FirstIndexInFront(front: seq<Permission>, rest: seq<Permission>, y: Permission)
    requires y in front
    ensures FirstIndex(front + rest, y) < |front|
  {
    if front[0] != y {
      FirstIndexInFront(front[1..], rest, y);
      assert (front + rest)[1..] == front[1..] + rest;
    }
  }

  // What first occurs before an element of the front is itself in the front.
  lemma EarlierStaysIn(front: seq<Permission>, rest: seq<Permission>, x: Permission, y: Permission)
    requires x in front + rest && y in front
    requires FirstIndex(front + rest, x) < FirstIndex(front + rest, y)
    ensures x in front
  {
    FirstIndexInFront(front, rest, y);
    FirstIndexInRange(front + rest, x);
    assert (front + rest)[FirstIndex(front + rest, x)] == front[FirstIndex(front + rest, x)];
  }

  /** The order inside each source is that of its claim: what one more entry grants comes after what the
      entries before it grant, and a role grants its permissions as listed. */
  lemma SourcesAreInOrder(items: seq<Value>, v: Value, words: seq<string>, w: string, roles: RoleMap)
    ensures DirectGrants(items + [v]) ==
            DirectGrants(items) + if v.Str? && Parse(v.text).Success? then [Parse(v.text).value] else []
    ensures RoleGrants(items + [v], roles) ==
            RoleGrants(items, roles) + if v.Str? && v.text in roles then roles[v.text] else []
    ensures TokenGrants(words + [w]) ==
            TokenGrants(words) + if Parse(w).Success? then [Parse(w).value] else []
  {
    assert (items + [v])[..|items|] == items && (words + [w])[..|words|] == words;
  }

  /** The first-occurrence list: every granted permission once, ordered by where it was first granted. */
  lemma GrantedListIsOrdered(claims: Claims, roles: RoleMap)
    ensures ListsOnce(Granted(claims, roles), Dedup(Granted(claims, roles)))
  {
    DedupSpec(Granted(claims, roles));
  }

  /** A scope claim written from a permission list grants that list back, in order, whenever each
      permission is printable, carries no white space and no "*" scope. */
  lemma {:induction false} ScopeClaimRoundTrip(perms: seq<Permission>, texts: seq<string>)
    requires |texts| == |perms|
    requires forall i :: 0 <= i < |perms| ==> Printable(perms[i]) && perms[i].scope != "*"
    requires forall i :: 0 <= i < |perms| ==> texts[i] == perms[i].String() && IsWord(texts[i])
    ensures TokenGrants(Fields(Join(texts, " "))) == perms
  {
    FieldsOfJoin(texts);
    forall i | 0 <= i < |perms| ensures GrantOf(texts[i]) == [perms[i]] {
      GrantOfPrinted(perms[i]);
    }
    TokensRoundTrip(perms, texts);
  }

  lemma GrantOfPrinted(p: Permission)
    requires Printable(p) && p.scope != "*"
    ensures GrantOf(p.String()) == [p]
  {
    ParseOfString(p);
  }

  lemma {:induction false} TokensRoundTrip(perms: seq<Permission>, texts: seq<string>)
    requires |texts| == |perms|
    requires forall i :: 0 <= i < |perms| ==> GrantOf(texts[i]) == [perms[i]]
    ensures TokenGrants(texts) == perms
  {
    if perms != [] {
      var n := |perms| - 1;
      TokensRoundTrip(perms[..n], texts[..n]);
      assert perms == perms[..n] + [perms[n]];
    }
  }
}
