/** A permission, its matching rule, and its textual form with the parser that reads it back. */
module Permissions {
  import opened Wrappers
  import opened Strings

  datatype ParseError = MissingColon | EmptyResource | EmptyAction | EmptyScope

  datatype Permission = Permission(resource: string, action: string, scope: string) {

    predicate Match(r: string, a: string, s: string) {
      var resourceMatch := resource == "*" || resource == r;
      var actionMatch := action == "*" || action == a;
      var scopeMatch := scope == "" || scope == "*" || s == "" || s == "*" || scope == s;
      resourceMatch && actionMatch && scopeMatch
    }

    function String(): string {
      if scope == "" || scope == "*" then resource + ":" + action
      else resource + ":" + action + ":" + scope
    }
  }

  function Parse(s: string): Result<Permission, ParseError> {
    var parts := SplitN(s, ':', 3);
    if |parts| < 2 then Failure(MissingColon)
    else if parts[0] == "" then Failure(EmptyResource)
    else if parts[1] == "" then Failure(EmptyAction)
    else if |parts| == 3 then
      if parts[2] == "" then Failure(EmptyScope) else Success(Permission(parts[0], parts[1], parts[2]))
    else Success(Permission(parts[0], parts[1], ""))
  }

  /** The permissions whose resource and action can be told apart in the textual form. */
  predicate Printable(p: Permission) {
    p.resource != "" && ':' !in p.resource && p.action != "" && ':' !in p.action
  }

  /** A "*" scope prints like no scope. */
  function Normal(p: Permission): Permission {
    if p.scope == "*" then p.(scope := "") else p
  }

  /** The permissions that grant the same requests. */
  ghost predicate SameGrants(p: Permission, q: Permission) {
    forall r, a, s :: p.Match(r, a, s) <==> q.Match(r, a, s)
  }

  /** What a grant covers, one dimension at a time: itself; nothing outside a concrete resource, action or
      scope; and with a "*" in one place, whatever may stand there and nothing more elsewhere. An empty
      scope, granted or asked for, is as good as "*". */
  lemma MatchMeaning(p: Permission, r: string, a: string, s: string)
    ensures p.Match(p.resource, p.action, p.scope)
    ensures p.Match(r, a, s) && p.resource != "*" ==> r == p.resource
    ensures p.Match(r, a, s) && p.action != "*" ==> a == p.action
    ensures p.Match(r, a, s) && p.scope !in {"", "*"} && s !in {"", "*"} ==> s == p.scope
    ensures p.(resource := "*").Match(r, a, s) <==> p.Match(p.resource, a, s)
    ensures p.(action := "*").Match(r, a, s) <==> p.Match(r, p.action, s)
    ensures p.(scope := "*").Match(r, a, s) <==> p.Match(r, a, p.scope)
    ensures p.(scope := "").Match(r, a, s) <==> p.Match(r, a, p.scope)
    ensures p.Match(r, a, "") <==> p.Match(r, a, p.scope)
    ensures p.Match(r, a, "*") <==> p.Match(r, a, p.scope)
    ensures Permission("*", "*", "*").Match(r, a, s)
  {
  }

  lemma TwoParts(a: string, b: string)
    requires ':' !in a && ':' !in b
    ensures SplitN(a + ":" + b, ':', 3) == [a, b]
  {
    SplitNHead(a, ':', b, 3);
    SplitNAbsent(b, ':', 2);
  }

  lemma ThreeParts(a: string, b: string, c: string)
    requires ':' !in a && ':' !in b
    ensures SplitN(a + ":" + b + ":" + c, ':', 3) == [a, b, c]
  {
    assert a + ":" + b + ":" + c == a + ":" + (b + ":" + c);
    SplitNHead(a, ':', b + ":" + c, 3);
    SplitNHead(b, ':', c, 2);
  }

  /** The one text that parses to p: its printed form, except that a "*" scope is written out. */
  function TextOf(p: Permission): string {
    if p.scope == "*" then p.resource + ":" + p.action + ":*" else p.String()
  }

  lemma TextIs(p: Permission)
    ensures TextOf(p) == p.resource + ":" + p.action + if p.scope == "" then "" else ":" + p.scope
  {
    assert p.resource + ":" + p.action + (":" + p.scope) == p.resource + ":" + p.action + ":" + p.scope;
    assert p.resource + ":" + p.action + "" == p.resource + ":" + p.action;
  }

  /** The parser accepts exactly the texts "resource:action" and "resource:action:scope" with a non-empty
      colon-free resource and action and a non-empty scope, and reads each part as what it is. */
  lemma ParsesExactly(s: string, p: Permission)
    ensures Parse(s) == Success(p) <==>
            && p.resource != "" && ':' !in p.resource && p.action != "" && ':' !in p.action
            && s == p.resource + ":" + p.action + if p.scope == "" then "" else ":" + p.scope
  {
    TextIs(p);
    if Parse(s).Success? {
      ParsedText(s);
    }
    if Printable(p) && s == TextOf(p) {
      if p.scope == "" {
        TwoParts(p.resource, p.action);
      } else {
        ThreeParts(p.resource, p.action, p.scope);
        assert TextOf(p) == p.resource + ":" + p.action + ":" + p.scope;
      }
    }
  }

  /** What the parser makes of a text of each shape: no colon, one colon, or two with anything behind. */
  lemma OutcomesExactly(r: string, a: string, c: string)
    requires ':' !in r && ':' !in a
    ensures Parse(r) == Failure(MissingColon)
    ensures Parse(r + ":" + a) ==
            if r == "" then Failure(EmptyResource)
            else if a == "" then Failure(EmptyAction)
            else Success(Permission(r, a, ""))
    ensures Parse(r + ":" + a + ":" + c) ==
            if r == "" then Failure(EmptyResource)
            else if a == "" then Failure(EmptyAction)
            else if c == "" then Failure(EmptyScope)
            else Success(Permission(r, a, c))
  {
    SplitNAbsent(r, ':', 3);
    TwoParts(r, a);
    ThreeParts(r, a, c);
  }

  /** Every text has one of these shapes. */
  lemma EveryTextHasAShape(s: string) returns (r: string, a: string, c: string)
    ensures ':' !in r && ':' !in a
    ensures s == r || s == r + ":" + a || s == r + ":" + a + ":" + c
  {
    var i := IndexOf(s, ':');
    r, a, c := s[..i], "", "";
    if i < |s| {
      var rest := s[i + 1..];
      var k := IndexOf(rest, ':');
      a := rest[..k];
      if k < |rest| {
        c := rest[k + 1..];
        assert s == r + ":" + a + ":" + c;
      } else {
        assert s == r + ":" + a;
      }
    }
  }

  lemma TwoJoined(s: string, parts: seq<string>)
    requires |parts| == 2 && Join(parts, ":") == s
    ensures s == parts[0] + ":" + parts[1]
  {
    JoinTwo(parts[0], parts[1], ":");
    assert parts == [parts[0], parts[1]];
  }

  lemma ThreeJoined(s: string, parts: seq<string>)
    requires |parts| == 3 && Join(parts, ":") == s
    ensures s == parts[0] + ":" + parts[1] + ":" + parts[2]
  {
    JoinThree(parts[0], parts[1], parts[2], ":");
    assert parts == [parts[0], parts[1], parts[2]];
  }

  lemma ParsedText(s: string)
    requires Parse(s).Success?
    ensures Printable(Parse(s).value) && s == TextOf(Parse(s).value)
  {
    var parts := SplitN(s, ':', 3);
    SplitNJoins(s, ':', 3);
    if |parts| == 2 {
      TwoJoined(s, parts);
    } else {
      ThreeJoined(s, parts);
    }
  }

  /** Printing and parsing give back the permission up to a "*" scope, even when the scope has colons. */
  lemma ParseOfString(p: Permission)
    requires Printable(p)
    ensures Parse(p.String()) == Success(Normal(p))
  {
    if p.scope == "" || p.scope == "*" {
      TwoParts(p.resource, p.action);
    } else {
      ThreeParts(p.resource, p.action, p.scope);
    }
  }

  /** The parser inverts the printer exactly on the printable permissions whose scope is not "*". */
  lemma RoundTripExactly(p: Permission)
    ensures Parse(p.String()) == Success(p) <==> Printable(p) && p.scope != "*"
  {
    if Printable(p) {
      ParseOfString(p);
    }
    if Parse(p.String()) == Success(p) {
      ParsedText(p.String());
    }
  }

  lemma NormalGrantsTheSame(p: Permission)
    ensures SameGrants(p, Normal(p))
  {
  }

  /** Every accepted text s with permission p: the printed p parses again to a permission with the same
      grants; it is p itself, and the printed text is s itself, unless the scope is "*". */
  lemma ReprintedText(s: string)
    requires Parse(s).Success?
    ensures var p := Parse(s).value;
            && Parse(p.String()).Success?
            && SameGrants(p, Parse(p.String()).value)
            && (Parse(p.String()).value == p <==> p.scope != "*")
            && (p.String() == s <==> p.scope != "*")
  {
    var p := Parse(s).value;
    ParsedText(s);
    ParseOfString(p);
    NormalGrantsTheSame(p);
    if p.scope == "*" {
      assert |s| == |p.String()| + 2;
    }
  }

  /** Parsing is injective: two texts with the same permission are the same text. */
  lemma ParseIsInjective(s: string, t: string)
    requires Parse(s).Success? && Parse(s) == Parse(t)
    ensures s == t
  {
    ParsedText(s);
    ParsedText(t);
  }
}
