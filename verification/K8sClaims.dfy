/** Kubernetes service account claims: three formats, read with independent fallbacks. */
module K8sClaims {
  import opened Wrappers
  import opened Strings
  import opened ClaimValues

  datatype ServiceAccount = ServiceAccount(id: string, name: string, namespace: string)

  datatype AccountError = MissingNamespace | MissingName

  const SYSTEM := "system"
  const SERVICE_ACCOUNT := "serviceaccount"
  const PREFIX := SYSTEM + ":" + SERVICE_ACCOUNT + ":"

  // The claim names of the nested, flat and subject forms.
  const NESTED := "kubernetes.io"
  const NESTED_NAMESPACE := "namespace"
  const NESTED_ACCOUNT := "serviceaccount"
  const NESTED_NAME := "name"
  const FLAT_NAMESPACE := "kubernetes.io/serviceaccount/namespace"
  const FLAT_NAME := "kubernetes.io/serviceaccount/service-account.name"
  const SUBJECT := "sub"

  function FirstNonEmpty(candidates: seq<string>): string {
    if candidates == [] then ""
    else if candidates[0] != "" then candidates[0]
    else FirstNonEmpty(candidates[1..])
  }

  /** The namespace and name in a subject of the form system:serviceaccount:namespace:name. */
  function SubjectParts(sub: string): (string, string) {
    var parts := Split(sub, ':');
    if |parts| == 4 && parts[0] == SYSTEM && parts[1] == SERVICE_ACCOUNT then (parts[2], parts[3]) else ("", "")
  }

  function NamespaceOf(claims: Claims): string {
    FirstNonEmpty([
      StringAt(ObjectAt(claims, NESTED), NESTED_NAMESPACE),
      StringAt(claims, FLAT_NAMESPACE),
      SubjectParts(StringAt(claims, SUBJECT)).0])
  }

  function NameOf(claims: Claims): string {
    FirstNonEmpty([
      StringAt(ObjectAt(ObjectAt(claims, NESTED), NESTED_ACCOUNT), NESTED_NAME),
      StringAt(claims, FLAT_NAME),
      SubjectParts(StringAt(claims, SUBJECT)).1])
  }

  function AccountOf(claims: Claims): Result<ServiceAccount, AccountError> {
    var namespace, name := NamespaceOf(claims), NameOf(claims);
    if namespace == "" then Failure(MissingNamespace)
    else if name == "" then Failure(MissingName)
    else Success(ServiceAccount(
      FirstNonEmpty([StringAt(claims, SUBJECT), PREFIX + namespace + ":" + name]), name, namespace))
  }

  lemma FirstOfThree(a: string, b: string, c: string)
    ensures FirstNonEmpty([a, b, c]) == if a != "" then a else if b != "" then b else c
    ensures FirstNonEmpty([a, b]) == if a != "" then a else b
  {
    assert [a, b, c][1..] == [b, c] && [b, c][1..] == [c] && [c][1..] == [];
    assert [a, b][1..] == [b] && [b][1..] == [];
    assert FirstNonEmpty([c]) == c && FirstNonEmpty([b]) == b;
    assert FirstNonEmpty([b, c]) == if b != "" then b else c;
  }

  /** Namespace and name are each taken from the first of the nested, flat and subject forms that has it,
      whatever form the other came from. */
  method ParseServiceAccountClaims(claims: Claims) returns (r: Result<ServiceAccount, AccountError>)
    ensures r == AccountOf(claims)
  {
    var namespace, name := ReadNested(claims);
    FallbackOrder(claims);
    if namespace == "" {
      namespace := StringAt(claims, FLAT_NAMESPACE);
    }
    if name == "" {
      name := StringAt(claims, FLAT_NAME);
    }
    if namespace == "" || name == "" {
      var fromSubject := SubjectParts(StringAt(claims, SUBJECT));
      if namespace == "" {
        namespace := fromSubject.0;
      }
      if name == "" {
        name := fromSubject.1;
      }
    }
    if namespace == "" {
      return Failure(MissingNamespace);
    }
    if name == "" {
      return Failure(MissingName);
    }
    var id := StringAt(claims, SUBJECT);
    FirstOfThree(id, PREFIX + namespace + ":" + name, "");
    if id == "" {
      id := PREFIX + namespace + ":" + name;
    }
    return Success(ServiceAccount(id, name, namespace));
  }

  method ReadNested(claims: Claims) returns (namespace: string, name: string)
    ensures namespace == StringAt(ObjectAt(claims, NESTED), NESTED_NAMESPACE)
    ensures name == StringAt(ObjectAt(ObjectAt(claims, NESTED), NESTED_ACCOUNT), NESTED_NAME)
  {
    namespace, name := "", "";
    if NESTED in claims && claims[NESTED].Obj? {
      var k8s := claims[NESTED].fields;
      namespace := StringAt(k8s, NESTED_NAMESPACE);
      if NESTED_ACCOUNT in k8s && k8s[NESTED_ACCOUNT].Obj? {
        name := StringAt(k8s[NESTED_ACCOUNT].fields, NESTED_NAME);
      }
    }
  }

  lemma FallbackOrder(claims: Claims)
    ensures var nested, flat := StringAt(ObjectAt(claims, NESTED), NESTED_NAMESPACE), StringAt(claims, FLAT_NAMESPACE);
            NamespaceOf(claims) == if nested != "" then nested else if flat != "" then flat
                                   else SubjectParts(StringAt(claims, SUBJECT)).0
    ensures var nested := StringAt(ObjectAt(ObjectAt(claims, NESTED), NESTED_ACCOUNT), NESTED_NAME);
            var flat := StringAt(claims, FLAT_NAME);
            NameOf(claims) == if nested != "" then nested else if flat != "" then flat
                              else SubjectParts(StringAt(claims, SUBJECT)).1
  {
    FirstOfThree(StringAt(ObjectAt(claims, NESTED), NESTED_NAMESPACE), StringAt(claims, FLAT_NAMESPACE),
                 SubjectParts(StringAt(claims, SUBJECT)).0);
    FirstOfThree(StringAt(ObjectAt(ObjectAt(claims, NESTED), NESTED_ACCOUNT), NESTED_NAME), StringAt(claims, FLAT_NAME),
                 SubjectParts(StringAt(claims, SUBJECT)).1);
  }

  /** The nested form decides where it can: a namespace and a name found there are the account's. */
  lemma NestedFormWins(claims: Claims)
    requires "kubernetes.io" in claims && claims["kubernetes.io"].Obj?
    ensures var nested := claims["kubernetes.io"].fields;
            && ("namespace" in nested && nested["namespace"].Str? && nested["namespace"].text != "" ==>
                  NamespaceOf(claims) == nested["namespace"].text)
            && ("serviceaccount" in nested && nested["serviceaccount"].Obj? ==>
                  var account := nested["serviceaccount"].fields;
                  "name" in account && account["name"].Str? && account["name"].text != "" ==>
                    NameOf(claims) == account["name"].text)
  {
    FallbackOrder(claims);
  }

  /** Without the nested form the flat claims decide, one by one. */
  lemma FlatFormIsNext(claims: Claims)
    requires "kubernetes.io" !in claims
    ensures var key := "kubernetes.io/serviceaccount/namespace";
            key in claims && claims[key].Str? && claims[key].text != "" ==> NamespaceOf(claims) == claims[key].text
    ensures var key := "kubernetes.io/serviceaccount/service-account.name";
            key in claims && claims[key].Str? && claims[key].text != "" ==> NameOf(claims) == claims[key].text
  {
    FallbackOrder(claims);
  }

  lemma PrefixIs()
    ensures PREFIX == "system:serviceaccount:"
  {
  }

  lemma BuiltParts(namespace: string, name: string)
    requires ':' !in namespace && ':' !in name
    ensures SubjectParts(PREFIX + namespace + ":" + name) == (namespace, name)
  {
    assert PREFIX + namespace + ":" + name == PREFIX + (namespace + ":" + name);
    BuiltSubjectSplit(namespace + ":" + name);
    TailParts(namespace, name);
  }

  lemma SubjectOfParts(sub: string)
    requires SubjectParts(sub) != ("", "")
    ensures var (namespace, name) := SubjectParts(sub);
            ':' !in namespace && ':' !in name && sub == PREFIX + namespace + ":" + name
  {
    var parts := Split(sub, ':');
    SplitJoins(sub, ':');
    FourJoined(parts, ":");
    assert sub == SYSTEM + ":" + SERVICE_ACCOUNT + ":" + parts[2] + ":" + parts[3];
  }

  /** A subject is taken apart exactly when it is of the form system:serviceaccount:namespace:name. */
  lemma SubjectExactly(sub: string, namespace: string, name: string)
    requires namespace != "" || name != ""
    ensures SubjectParts(sub) == (namespace, name) <==>
            && ':' !in namespace && ':' !in name
            && sub == "system:serviceaccount:" + namespace + ":" + name
  {
    PrefixIs();
    if SubjectParts(sub) == (namespace, name) {
      SubjectOfParts(sub);
    } else if ':' !in namespace && ':' !in name {
      BuiltParts(namespace, name);
    }
  }

  lemma FourJoined(parts: seq<string>, sep: string)
    requires |parts| == 4
    ensures Join(parts, sep) == parts[0] + sep + parts[1] + sep + parts[2] + sep + parts[3]
  {
    assert parts == [parts[0]] + [parts[1], parts[2], parts[3]];
    JoinHead(parts[0], [parts[1], parts[2], parts[3]], sep);
    JoinThree(parts[1], parts[2], parts[3], sep);
    assert parts[0] + sep + (parts[1] + sep + parts[2] + sep + parts[3]) ==
           parts[0] + sep + parts[1] + sep + parts[2] + sep + parts[3];
  }

  /** The account: its ID is the subject claim if there is one and else is built from its parts; it is
      refused exactly when a part is missing, and a missing namespace is reported first. */
  lemma AccountExactly(claims: Claims)
    ensures var r := AccountOf(claims);
            && (r == Failure(MissingNamespace) <==> NamespaceOf(claims) == "")
            && (r == Failure(MissingName) <==> NamespaceOf(claims) != "" && NameOf(claims) == "")
            && (r.Success? ==>
                  && r.value.namespace == NamespaceOf(claims) && r.value.name == NameOf(claims)
                  && r.value.id ==
                     if "sub" in claims && claims["sub"].Str? && claims["sub"].text != "" then claims["sub"].text
                     else "system:serviceaccount:" + r.value.namespace + ":" + r.value.name)
  {
    PrefixIs();
    var built := PREFIX + NamespaceOf(claims) + ":" + NameOf(claims);
    FirstOfThree(StringAt(claims, SUBJECT), built, "");
  }

  lemma {:induction false} SplitCounts(a: string, b: string)
    ensures |Split(a + ":" + b, ':')| == |Split(a, ':')| + |Split(b, ':')|
    decreases |a|
  {
    var i := IndexOf(a, ':');
    if i == |a| {
      SplitHead(a, ':', b);
    } else {
      SplitCounts(a[i + 1..], b);
      FirstPart(a, b, i);
    }
  }

  lemma FirstPart(a: string, b: string, i: nat)
    requires i == IndexOf(a, ':') < |a|
    ensures |Split(a + ":" + b, ':')| == 1 + |Split(a[i + 1..] + ":" + b, ':')|
  {
    assert a + ":" + b == a[..i] + [':'] + (a[i + 1..] + ":" + b);
    SplitHead(a[..i], ':', a[i + 1..] + ":" + b);
  }

  lemma SplitLength(s: string)
    ensures |Split(s, ':')| >= 1
    ensures |Split(s, ':')| == 1 <==> ':' !in s
  {
    var i := IndexOf(s, ':');
    if i == |s| {
      assert s[..i] == s;
    } else {
      assert s[i] in s;
      SplitLength(s[i + 1..]);
    }
  }

  /** The subject built from a namespace and a name splits back into exactly them if and only if neither
      contains a colon. */
  lemma BuiltSubjectExactly(namespace: string, name: string)
    requires namespace != "" && name != ""
    ensures SubjectParts(PREFIX + namespace + ":" + name) == (namespace, name) <==>
            ':' !in namespace && ':' !in name
  {
    var tail := namespace + ":" + name;
    BuiltSubjectSplit(tail);
    assert PREFIX + namespace + ":" + name == PREFIX + tail;
    TailParts(namespace, name);
  }

  lemma TailParts(namespace: string, name: string)
    ensures |Split(namespace + ":" + name, ':')| >= 2
    ensures |Split(namespace + ":" + name, ':')| == 2 <==> ':' !in namespace && ':' !in name
    ensures ':' !in namespace && ':' !in name ==> Split(namespace + ":" + name, ':') == [namespace, name]
  {
    SplitCounts(namespace, name);
    SplitLength(namespace);
    SplitLength(name);
    if ':' !in namespace && ':' !in name {
      SplitHead(namespace, ':', name);
      SplitAbsent(name, ':');
    }
  }

  lemma BuiltSubjectSplit(tail: string)
    ensures Split(PREFIX + tail, ':') == [SYSTEM, SERVICE_ACCOUNT] + Split(tail, ':')
  {
    TwoHeads(SYSTEM, SERVICE_ACCOUNT, tail);
  }

  lemma TwoHeads(a: string, b: string, tail: string)
    requires ':' !in a && ':' !in b
    ensures Split(a + ":" + b + ":" + tail, ':') == [a, b] + Split(tail, ':')
  {
    assert a + ":" + b + ":" + tail == a + ":" + (b + ":" + tail);
    SplitHead(a, ':', b + ":" + tail);
    SplitHead(b, ':', tail);
  }

  /** When the claims carry no subject, the ID built for the account, read again as a lone subject claim,
      gives the same namespace and name exactly when neither contains a colon. */
  lemma BuiltIdReparses(claims: Claims)
    requires AccountOf(claims).Success? && StringAt(claims, SUBJECT) == ""
    ensures var account := AccountOf(claims).value;
            AccountOf(map[SUBJECT := Str(account.id)]) == Success(account) <==>
              ':' !in account.namespace && ':' !in account.name
  {
    var account := AccountOf(claims).value;
    FirstOfThree("", PREFIX + account.namespace + ":" + account.name, "");
    var lone := map[SUBJECT := Str(account.id)];
    FirstOfThree("", "", SubjectParts(account.id).0);
    FirstOfThree("", "", SubjectParts(account.id).1);
    FirstOfThree(account.id, PREFIX + NamespaceOf(lone) + ":" + NameOf(lone), "");
    BuiltSubjectExactly(account.namespace, account.name);
  }
}
