/** The three-index permission set and the claim sources that fill it. */
module PermissionSets {
  import opened Permissions

  /** s without repetitions, each element at its first occurrence. */
  function Dedup(s: seq<Permission>): seq<Permission> {
    if s == [] then []
    else
      var d := Dedup(s[..|s| - 1]);
      if s[|s| - 1] in d then d else d + [s[|s| - 1]]
  }

  /** The position where x first occurs in s. */
  function FirstIndex(s: seq<Permission>, x: Permission): nat
    requires x in s
  {
    if s[0] == x then 0 else 1 + FirstIndex(s[1..], x)
  }

  lemma {:induction false} FirstIndexSnoc(s: seq<Permission>, y: Permission, x: Permission)
    requires x in s + [y]
    ensures FirstIndex(s + [y], x) == if x in s then FirstIndex(s, x) else |s|
  {
    if s != [] && s[0] != x {
      assert (s + [y])[1..] == s[1..] + [y];
      FirstIndexSnoc(s[1..], y, x);
    }
  }

  /** d lists the elements of s, each once, in the order of their first occurrences. */
  ghost predicate ListsOnce(s: seq<Permission>, d: seq<Permission>) {
    && (forall x :: x in d <==> x in s)
    && (forall i, j :: 0 <= i < j < |d| ==> d[i] != d[j])
    && (forall i, j :: 0 <= i < j < |d| ==> FirstIndex(s, d[i]) < FirstIndex(s, d[j]))
  }

  lemma {:induction false} DedupSpec(s: seq<Permission>)
    ensures ListsOnce(s, Dedup(s))
  {
    if s != [] {
      var front, last := s[..|s| - 1], s[|s| - 1];
      assert s == front + [last];
      DedupSpec(front);
      ListsOnceSnoc(front, Dedup(front), last);
    }
  }

  lemma ListsOnceSnoc(s: seq<Permission>, d: seq<Permission>, y: Permission)
    requires ListsOnce(s, d)
    ensures ListsOnce(s + [y], if y in d then d else d + [y])
  {
    var d' := if y in d then d else d + [y];
    assert (s + [y])[|s|] == y && (d + [y])[|d|] == y;
    forall x ensures x in d' <==> x in s + [y] {
      assert x in s + [y] <==> x in s || x == y;
    }
    forall i, j | 0 <= i < j < |d'| ensures FirstIndex(s + [y], d'[i]) < FirstIndex(s + [y], d'[j]) {
      assert d'[i] == d[i] && d'[i] in d && d'[j] in d';
      FirstIndexSnoc(s, y, d'[i]);
      FirstIndexSnoc(s, y, d'[j]);
      FirstIndexInRange(s, d'[i]);
      if j < |d| {
        assert d'[j] == d[j] && d'[j] in d;
      }
    }
  }

  /** There is only one such list. */
  lemma ListsOnceIsUnique(s: seq<Permission>, d: seq<Permission>, e: seq<Permission>)
    requires ListsOnce(s, d) && ListsOnce(s, e)
    ensures d == e
  {
    DistinctSize(d);
    DistinctSize(e);
    assert (set x | x in d) == (set x | x in e);
    SamePrefix(s, d, e, |d|);
  }

  lemma {:induction false} DistinctSize(d: seq<Permission>)
    requires forall i, j :: 0 <= i < j < |d| ==> d[i] != d[j]
    ensures |d| == |set x | x in d|
  {
    if d != [] {
      var front, last := d[..|d| - 1], d[|d| - 1];
      DistinctSize(front);
      assert d == front + [last] && last !in front;
      assert (set x | x in d) == (set x | x in front) + {last};
    }
  }

  lemma {:induction false} SamePrefix(s: seq<Permission>, d: seq<Permission>, e: seq<Permission>, k: nat)
    requires ListsOnce(s, d) && ListsOnce(s, e) && k <= |d| && k <= |e|
    ensures d[..k] == e[..k]
  {
    if k > 0 {
      SamePrefix(s, d, e, k - 1);
      var m := LaterIndex(d, e, k - 1);
      var n := LaterIndex(e, d, k - 1);
      assert FirstIndex(s, e[m]) == FirstIndex(s, d[k - 1]) && FirstIndex(s, d[n]) == FirstIndex(s, e[k - 1]);
    }
  }

  // Past a common prefix, an element of one list is found past that prefix in the other.
  lemma LaterIndex(d: seq<Permission>, e: seq<Permission>, k: nat) returns (m: nat)
    requires k < |d| && k <= |e| && d[..k] == e[..k] && d[k] in e
    requires forall i, j :: 0 <= i < j < |d| ==> d[i] != d[j]
    ensures k <= m < |e| && e[m] == d[k]
  {
    forall i | 0 <= i < k ensures d[i] == e[i] {
      assert d[..k][i] == e[..k][i];
    }
    m :| m < |e| && e[m] == d[k];
  }

  lemma {:induction false} FirstIndexInRange(s: seq<Permission>, x: Permission)
    requires x in s
    ensures FirstIndex(s, x) < |s| && s[FirstIndex(s, x)] == x && x !in s[..FirstIndex(s, x)]
  {
    if s[0] != x {
      FirstIndexInRange(s[1..], x);
      var k := FirstIndex(s[1..], x);
      assert s[..k + 1] == [s[0]] + s[1..][..k];
    }
  }

  /** A list without repetitions is its own deduplication. */
  lemma {:induction false} DedupOfDistinct(s: seq<Permission>)
    requires forall i, j :: 0 <= i < j < |s| ==> s[i] != s[j]
    ensures Dedup(s) == s
  {
    if s != [] {
      var front, last := s[..|s| - 1], s[|s| - 1];
      DedupOfDistinct(front);
      assert last !in front;
      assert s == front + [last];
    }
  }

  predicate HasWildcard(p: Permission) {
    p.resource == "*" || p.action == "*" || p.scope == "*"
  }

  function Wildcards(s: seq<Permission>): seq<Permission> {
    if s == [] then []
    else
      Wildcards(s[..|s| - 1]) + (if HasWildcard(s[|s| - 1]) then [s[|s| - 1]] else [])
  }

  datatype PermissionSet = PermissionSet(
    exact: set<Permission>,
    anyScope: set<(string, string)>,
    wildcards: seq<Permission>,
    all: seq<Permission>)
  {
    predicate Has(r: string, a: string, s: string) {
      Permission(r, a, s) in exact
    }

    predicate Match(r: string, a: string, s: string) {
      || Has(r, a, s)
      || (if s == "" || s == "*" then (r, a) in anyScope else Permission(r, a, "") in exact)
      || Grants(wildcards, r, a, s)
    }
  }

  /** A linear scan: some permission of the list matches. */
  predicate Grants(perms: seq<Permission>, r: string, a: string, s: string) {
    exists p :: p in perms && p.Match(r, a, s)
  }

  /** ps indexes perms: exact and wildcards split the deduplicated list between them, and anyScope is the
      projection of exact. */
  ghost predicate Indexes(ps: PermissionSet, perms: seq<Permission>) {
    && ps.all == Dedup(perms)
    && (forall p :: p in ps.exact <==> p in perms && !HasWildcard(p))
    && (forall r, a :: (r, a) in ps.anyScope <==> exists s :: Permission(r, a, s) in ps.exact)
    && ps.wildcards == Wildcards(ps.all)
  }

  method NewPermissionSet(perms: seq<Permission>) returns (ps: PermissionSet)
    ensures Indexes(ps, perms)
  {
    var exact, anyScope, wildcards, all := {}, {}, [], [];
    var seen := {};
    var i := 0;
    while i < |perms|
      invariant 0 <= i <= |perms|
      invariant seen == set p | p in perms[..i]
      invariant Indexes(PermissionSet(exact, anyScope, wildcards, all), perms[..i])
    {
      var p := perms[i];
      assert perms[..i + 1] == perms[..i] + [p];
      ghost var before := PermissionSet(exact, anyScope, wildcards, all);
      if p in seen {
        IndexKeepsRepeated(before, perms[..i], p);
      } else {
        seen := seen + {p};
        all := all + [p];
        if HasWildcard(p) {
          wildcards := wildcards + [p];
          IndexAddsWildcard(before, perms[..i], p);
        } else {
          exact, anyScope := exact + {p}, anyScope + {(p.resource, p.action)};
          IndexAddsExact(before, perms[..i], p);
        }
      }
      i := i + 1;
    }
    assert perms[..i] == perms;
    ps := PermissionSet(exact, anyScope, wildcards, all);
  }

  // A permission listed before changes nothing.
  lemma IndexKeepsRepeated(ps: PermissionSet, perms: seq<Permission>, p: Permission)
    requires Indexes(ps, perms) && p in perms
    ensures Indexes(ps, perms + [p])
  {
    assert (perms + [p])[..|perms|] == perms;
    DedupSpec(perms);
  }

  lemma NewInDedup(perms: seq<Permission>, p: Permission)
    requires p !in perms
    ensures Dedup(perms + [p]) == Dedup(perms) + [p]
  {
    assert (perms + [p])[..|perms|] == perms;
    DedupSpec(perms);
  }

  // A new permission with a wildcard joins the slice.
  lemma IndexAddsWildcard(ps: PermissionSet, perms: seq<Permission>, p: Permission)
    requires Indexes(ps, perms) && p !in perms && HasWildcard(p)
    ensures Indexes(ps.(wildcards := ps.wildcards + [p], all := ps.all + [p]), perms + [p])
  {
    NewInDedup(perms, p);
    assert (ps.all + [p])[..|ps.all|] == ps.all;
  }

  // A new exact permission joins the map and the projection.
  lemma IndexAddsExact(ps: PermissionSet, perms: seq<Permission>, p: Permission)
    requires Indexes(ps, perms) && p !in perms && !HasWildcard(p)
    ensures Indexes(ps.(exact := ps.exact + {p}, anyScope := ps.anyScope + {(p.resource, p.action)},
                        all := ps.all + [p]), perms + [p])
  {
    NewInDedup(perms, p);
    assert (ps.all + [p])[..|ps.all|] == ps.all;
    assert Wildcards(ps.all) + [] == Wildcards(ps.all);
    IndexedExact(ps, p);
  }

  lemma IndexedExact(ps: PermissionSet, p: Permission)
    requires forall r, a :: (r, a) in ps.anyScope <==> exists s :: Permission(r, a, s) in ps.exact
    ensures forall r, a :: (r, a) in ps.anyScope + {(p.resource, p.action)} <==>
                           exists s :: Permission(r, a, s) in ps.exact + {p}
  {
    forall r, a
      ensures (r, a) in ps.anyScope + {(p.resource, p.action)} <==>
              exists s :: Permission(r, a, s) in ps.exact + {p}
    {
      assert p == Permission(p.resource, p.action, p.scope);
      if (r, a) in ps.anyScope {
        var s :| Permission(r, a, s) in ps.exact;
        assert Permission(r, a, s) in ps.exact + {p};
      } else if (r, a) == (p.resource, p.action) {
        assert Permission(r, a, p.scope) in ps.exact + {p};
      }
    }
  }

  lemma {:induction false} WildcardsSpec(s: seq<Permission>)
    ensures forall p :: p in Wildcards(s) <==> p in s && HasWildcard(p)
  {
    if s != [] {
      var front, last := s[..|s| - 1], s[|s| - 1];
      assert s == front + [last];
      WildcardsSpec(front);
    }
  }

  /** The exact map and the wildcard slice partition the listed permissions. */
  lemma IndexPartitions(ps: PermissionSet, perms: seq<Permission>)
    requires Indexes(ps, perms)
    ensures forall p :: p in perms <==> p in ps.exact || p in ps.wildcards
    ensures forall p :: !(p in ps.exact && p in ps.wildcards)
    ensures forall p :: p in ps.wildcards <==> p in perms && "*" in {p.resource, p.action, p.scope}
    ensures forall r, a, s :: ps.Has(r, a, s) <==> Permission(r, a, s) in perms && "*" !in {r, a, s}
  {
    WildcardsSpec(ps.all);
    DedupSpec(perms);
  }

  /** The index answers every request as a linear scan of the original list would. */
  lemma MatchIsAScan(ps: PermissionSet, perms: seq<Permission>, r: string, a: string, s: string)
    requires Indexes(ps, perms)
    ensures ps.Match(r, a, s) <==> Grants(perms, r, a, s)
  {
    IndexPartitions(ps, perms);
    if ps.Match(r, a, s) {
      IndexedGrant(ps, perms, r, a, s);
    }
    if Grants(perms, r, a, s) {
      var p :| p in perms && p.Match(r, a, s);
      if p in ps.exact {
        assert p == Permission(r, a, p.scope);
        assert s == "" || s == "*" || p.scope == s || p.scope == "";
        if s == "" || s == "*" { assert (r, a) in ps.anyScope; }
      }
    }
  }

  // What a hit in each of the indexes rests on.
  lemma IndexedGrant(ps: PermissionSet, perms: seq<Permission>, r: string, a: string, s: string)
    requires Indexes(ps, perms) && ps.Match(r, a, s)
    ensures Grants(perms, r, a, s)
  {
    IndexPartitions(ps, perms);
    if ps.Has(r, a, s) {
      assert Permission(r, a, s).Match(r, a, s);
    } else if s == "" || s == "*" {
      if (r, a) in ps.anyScope {
        var t :| Permission(r, a, t) in ps.exact;
        assert Permission(r, a, t).Match(r, a, s);
      }
    } else if Permission(r, a, "") in ps.exact {
      assert Permission(r, a, "").Match(r, a, s);
    }
  }

  /** hasPermission: the scope-unaware loop over a list. */
  method HasPermission(perms: seq<Permission>, r: string, a: string) returns (ok: bool)
    ensures ok <==> Grants(perms, r, a, "")
  {
    var i := 0;
    while i < |perms|
      invariant 0 <= i <= |perms|
      invariant forall k :: 0 <= k < i ==> !perms[k].Match(r, a, "")
    {
      if perms[i].Match(r, a, "") {
        return true;
      }
      i := i + 1;
    }
    return false;
  }
}
