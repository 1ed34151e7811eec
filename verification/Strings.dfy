/** The string primitives the models rest on, as Go's strings package defines them. */
module Strings {

  /** The index of the first c in s, or |s| when there is none. */
  function IndexOf(s: string, c: char): (i: nat)
    ensures i <= |s| && c !in s[..i]
    ensures i < |s| ==> s[i] == c
  {
    if s == "" || s[0] == c then 0
    else
      var i := 1 + IndexOf(s[1..], c);
      assert s[..i] == [s[0]] + s[1..][..i - 1];
      i
  }

  /** strings.SplitN for n >= 1: at most n parts, the last one unsplit. */
  function SplitN(s: string, sep: char, n: nat): seq<string>
    requires n >= 1
    decreases n
  {
    var i := IndexOf(s, sep);
    if n == 1 || i == |s| then [s] else [s[..i]] + SplitN(s[i + 1..], sep, n - 1)
  }

  /** strings.Split by a single character. */
  function Split(s: string, sep: char): seq<string>
    decreases |s|
  {
    var i := IndexOf(s, sep);
    if i == |s| then [s] else [s[..i]] + Split(s[i + 1..], sep)
  }

  lemma JoinTwo(a: string, b: string, sep: string)
    ensures Join([a, b], sep) == a + sep + b
  {
    assert [a, b][1..] == [b];
  }

  lemma JoinThree(a: string, b: string, c: string, sep: string)
    ensures Join([a, b, c], sep) == a + sep + b + sep + c
  {
    assert [a, b, c][1..] == [b, c];
    JoinTwo(b, c, sep);
    assert a + sep + (b + sep + c) == a + sep + b + sep + c;
  }

  function Join(parts: seq<string>, sep: string): string {
    if parts == [] then ""
    else if |parts| == 1 then parts[0]
    else parts[0] + sep + Join(parts[1..], sep)
  }

  lemma {:induction false} IndexOfIs(s: string, c: char, k: nat)
    requires k <= |s| && (k < |s| ==> s[k] == c)
    requires forall i :: 0 <= i < k ==> s[i] != c
    ensures IndexOf(s, c) == k
  {
    if k > 0 {
      IndexOfIs(s[1..], c, k - 1);
    }
  }

  lemma IndexOfFirst(a: string, c: char, b: string)
    requires c !in a
    ensures IndexOf(a + [c] + b, c) == |a|
  {
    IndexOfIs(a + [c] + b, c, |a|);
  }

  lemma IndexOfAbsent(s: string, c: char)
    requires c !in s
    ensures IndexOf(s, c) == |s|
  {
    IndexOfIs(s, c, |s|);
  }

  lemma SplitNHead(a: string, sep: char, b: string, n: nat)
    requires sep !in a && n >= 2
    ensures SplitN(a + [sep] + b, sep, n) == [a] + SplitN(b, sep, n - 1)
  {
    IndexOfFirst(a, sep, b);
    assert (a + [sep] + b)[..|a|] == a && (a + [sep] + b)[|a| + 1..] == b;
  }

  lemma SplitNAbsent(s: string, sep: char, n: nat)
    requires sep !in s && n >= 1
    ensures SplitN(s, sep, n) == [s]
  {
    IndexOfAbsent(s, sep);
  }

  lemma JoinHead(head: string, rest: seq<string>, sep: string)
    requires rest != []
    ensures Join([head] + rest, sep) == head + sep + Join(rest, sep)
  {
    assert ([head] + rest)[1..] == rest;
  }

  lemma {:induction false} SplitNLosesNothing(s: string, sep: char, n: nat)
    requires n >= 1
    ensures SplitN(s, sep, n) != [] && Join(SplitN(s, sep, n), [sep]) == s
    decreases n
  {
    var i := IndexOf(s, sep);
    if n > 1 && i < |s| {
      SplitNLosesNothing(s[i + 1..], sep, n - 1);
      JoinHead(s[..i], SplitN(s[i + 1..], sep, n - 1), [sep]);
      assert s == s[..i] + [sep] + s[i + 1..];
    }
  }

  lemma {:induction false} SplitNCutsEarly(s: string, sep: char, n: nat)
    requires n >= 1
    ensures var parts := SplitN(s, sep, n);
            && 1 <= |parts| <= n
            && (forall k :: 0 <= k < |parts| - 1 ==> sep !in parts[k])
            && (|parts| < n ==> sep !in parts[|parts| - 1])
    decreases n
  {
    var i := IndexOf(s, sep);
    if n > 1 && i < |s| {
      SplitNCutsEarly(s[i + 1..], sep, n - 1);
    } else {
      assert s[..|s|] == s;
    }
  }

  /** Splitting loses nothing and cuts as early as it can. */
  lemma SplitNJoins(s: string, sep: char, n: nat)
    requires n >= 1
    ensures var parts := SplitN(s, sep, n);
            && Join(parts, [sep]) == s
            && 1 <= |parts| <= n
            && (forall k :: 0 <= k < |parts| - 1 ==> sep !in parts[k])
            && (|parts| < n ==> sep !in parts[|parts| - 1])
  {
    SplitNLosesNothing(s, sep, n);
    SplitNCutsEarly(s, sep, n);
  }

  /** Split cuts at every separator and loses nothing. */
  lemma {:induction false} SplitJoins(s: string, sep: char)
    ensures Split(s, sep) != [] && Join(Split(s, sep), [sep]) == s
    ensures forall k :: 0 <= k < |Split(s, sep)| ==> sep !in Split(s, sep)[k]
    decreases |s|
  {
    var i := IndexOf(s, sep);
    if i < |s| {
      SplitJoins(s[i + 1..], sep);
      JoinHead(s[..i], Split(s[i + 1..], sep), [sep]);
      assert s == s[..i] + [sep] + s[i + 1..];
    } else {
      assert s[..i] == s;
    }
  }

  lemma SplitHead(a: string, sep: char, b: string)
    requires sep !in a
    ensures Split(a + [sep] + b, sep) == [a] + Split(b, sep)
  {
    IndexOfFirst(a, sep, b);
    assert (a + [sep] + b)[..|a|] == a && (a + [sep] + b)[|a| + 1..] == b;
  }

  lemma SplitAbsent(s: string, sep: char)
    requires sep !in s
    ensures Split(s, sep) == [s]
  {
    IndexOfAbsent(s, sep);
  }

  // ---------------------------------------------------------------------------------------------
  // strings.Fields and strings.TrimSpace
  // ---------------------------------------------------------------------------------------------

  /** unicode.IsSpace. */
  predicate IsSpace(c: char) {
    || c in {' ', '\t', '\n', '\r', '\U{B}', '\U{C}', '\U{85}', '\U{A0}'}
    || c in {'\U{1680}', '\U{2028}', '\U{2029}', '\U{202F}', '\U{205F}', '\U{3000}'}
    || '\U{2000}' <= c <= '\U{200A}'
  }

  /** The code points of Unicode's White_Space property. */
  lemma SpacesAre(c: char)
    ensures IsSpace(c) <==>
            var n := c as int;
            || 9 <= n <= 13 || 0x2000 <= n <= 0x200A
            || n in {0x20, 0x85, 0xA0, 0x1680, 0x2028, 0x2029, 0x202F, 0x205F, 0x3000}
  {
  }

  predicate IsWord(w: string) {
    w != "" && forall i :: 0 <= i < |w| ==> !IsSpace(w[i])
  }

  /** The length of the longest prefix without white space. */
  function WordLength(s: string): (k: nat)
    ensures k <= |s| && forall i :: 0 <= i < k ==> !IsSpace(s[i])
    ensures k < |s| ==> IsSpace(s[k])
  {
    if s == "" || IsSpace(s[0]) then 0 else 1 + WordLength(s[1..])
  }

  lemma {:induction false} WordLengthIs(s: string, k: nat)
    requires k <= |s| && (k < |s| ==> IsSpace(s[k]))
    requires forall i :: 0 <= i < k ==> !IsSpace(s[i])
    ensures WordLength(s) == k
  {
    if k > 0 {
      WordLengthIs(s[1..], k - 1);
    }
  }

  function Fields(s: string): seq<string>
    decreases |s|
  {
    if s == "" then []
    else if IsSpace(s[0]) then Fields(s[1..])
    else
      var k := WordLength(s);
      [s[..k]] + Fields(s[k..])
  }

  predicate IsGap(g: string) {
    forall i :: 0 <= i < |g| ==> IsSpace(g[i])
  }

  /** s is these words in order, with nothing but white space before each and after the last, and with
      white space or the end of the text right after each. */
  ghost predicate LaidOut(s: string, words: seq<string>)
    decreases |words|
  {
    if words == [] then IsGap(s)
    else exists i, j :: WordAt(s, i, j, words[0]) && LaidOut(s[j..], words[1..])
  }

  predicate WordAt(s: string, i: int, j: int, w: string) {
    0 <= i <= j <= |s| && IsGap(s[..i]) && s[i..j] == w && (j < |s| ==> IsSpace(s[j]))
  }

  ghost predicate AllWords(words: seq<string>) {
    forall i :: 0 <= i < |words| ==> IsWord(words[i])
  }

  lemma {:induction false} FieldsSkipGap(g: string, s: string)
    requires IsGap(g)
    ensures Fields(g + s) == Fields(s)
  {
    if g == "" {
      assert g + s == s;
    } else {
      FieldsSkipGap(g[1..], s);
      assert (g + s)[1..] == g[1..] + s;
    }
  }

  lemma FieldsTakeWord(w: string, s: string)
    requires IsWord(w) && (s != "" ==> IsSpace(s[0]))
    ensures Fields(w + s) == [w] + Fields(s)
  {
    WordLengthIs(w + s, |w|);
    assert (w + s)[..|w|] == w && (w + s)[|w|..] == s && (w + s)[0] == w[0];
  }

  lemma FieldsAtWord(s: string, i: nat, j: nat, w: string)
    requires WordAt(s, i, j, w) && IsWord(w)
    ensures Fields(s) == [w] + Fields(s[j..])
  {
    assert s == s[..i] + s[i..] && s[i..] == w + s[j..];
    FieldsSkipGap(s[..i], s[i..]);
    FieldsTakeWord(w, s[j..]);
  }

  lemma FieldsOfGap(s: string)
    requires IsGap(s)
    ensures Fields(s) == []
  {
    FieldsSkipGap(s, "");
    assert s + "" == s;
  }

  lemma {:induction false} FieldsOfLaidOut(s: string, words: seq<string>)
    requires LaidOut(s, words) && AllWords(words)
    ensures Fields(s) == words
    decreases |words|
  {
    if words == [] {
      FieldsOfGap(s);
    } else {
      var i, j :| WordAt(s, i, j, words[0]) && LaidOut(s[j..], words[1..]);
      FieldsAtWord(s, i, j, words[0]);
      FieldsOfLaidOut(s[j..], words[1..]);
    }
  }

  lemma WordAtAfterSpace(s: string, i: nat, j: nat, w: string)
    requires s != "" && IsSpace(s[0]) && WordAt(s[1..], i, j, w)
    ensures WordAt(s, i + 1, j + 1, w) && s[1..][j..] == s[j + 1..]
  {
    assert s[1..][i..j] == s[i + 1..j + 1] && s[..i + 1] == [s[0]] + s[1..][..i];
  }

  lemma LaidOutAfterSpace(s: string, words: seq<string>)
    requires s != "" && IsSpace(s[0]) && LaidOut(s[1..], words)
    ensures LaidOut(s, words)
  {
    if words != [] {
      var i, j :| WordAt(s[1..], i, j, words[0]) && LaidOut(s[1..][j..], words[1..]);
      WordAtAfterSpace(s, i, j, words[0]);
    }
  }

  lemma {:induction false} FieldsLaidOut(s: string)
    ensures LaidOut(s, Fields(s)) && AllWords(Fields(s))
    decreases |s|
  {
    if s == "" {
    } else if IsSpace(s[0]) {
      FieldsLaidOut(s[1..]);
      LaidOutAfterSpace(s, Fields(s[1..]));
    } else {
      var k := WordLength(s);
      FieldsLaidOut(s[k..]);
      assert WordAt(s, 0, k, s[..k]);
      assert Fields(s)[1..] == Fields(s[k..]);
    }
  }

  /** Fields cuts a text at its white space and nowhere else: words are its result exactly when they are
      words and the text is laid out as those words. */
  lemma FieldsExactly(s: string, words: seq<string>)
    ensures Fields(s) == words <==> AllWords(words) && LaidOut(s, words)
  {
    FieldsLaidOut(s);
    if AllWords(words) && LaidOut(s, words) {
      FieldsOfLaidOut(s, words);
    }
  }

  /** Words joined by single spaces come apart again. */
  lemma {:induction false} FieldsOfJoin(words: seq<string>)
    requires forall i :: 0 <= i < |words| ==> IsWord(words[i])
    ensures Fields(Join(words, " ")) == words
  {
    if words != [] {
      var w, rest := words[0], words[1..];
      FieldsOfJoin(rest);
      var s := Join(words, " ");
      var tail := if rest == [] then "" else " " + Join(rest, " ");
      assert s == w + tail;
      WordLengthIs(s, |w|);
      assert s[..|w|] == w && s[|w|..] == tail;
      if rest != [] {
        assert tail[1..] == Join(rest, " ");
      }
      assert Fields(tail) == rest;
      assert s[0] == w[0];
      assert words == [w] + rest;
    }
  }

  function TrimLeft(s: string): string {
    if s != "" && IsSpace(s[0]) then TrimLeft(s[1..]) else s
  }

  function TrimRight(s: string): string {
    if s != "" && IsSpace(s[|s| - 1]) then TrimRight(s[..|s| - 1]) else s
  }

  function TrimSpace(s: string): string {
    TrimRight(TrimLeft(s))
  }

  /** t is s without the white space at its ends. */
  ghost predicate IsTrimmed(s: string, t: string) {
    && (t != "" ==> !IsSpace(t[0]) && !IsSpace(t[|t| - 1]))
    && exists i, j :: 0 <= i <= j <= |s| && s[i..j] == t && IsGap(s[..i]) && IsGap(s[j..])
  }

  lemma {:induction false} TrimLeftTrims(s: string) returns (i: nat)
    ensures i <= |s| && IsGap(s[..i]) && TrimLeft(s) == s[i..] && (i < |s| ==> !IsSpace(s[i]))
  {
    if s != "" && IsSpace(s[0]) {
      var k := TrimLeftTrims(s[1..]);
      i := k + 1;
      assert s[..i] == [s[0]] + s[1..][..k] && s[i..] == s[1..][k..];
    } else {
      i := 0;
    }
  }

  lemma {:induction false} TrimRightTrims(s: string) returns (j: nat)
    ensures j <= |s| && IsGap(s[j..]) && TrimRight(s) == s[..j] && (j > 0 ==> !IsSpace(s[j - 1]))
  {
    if s != "" && IsSpace(s[|s| - 1]) {
      var front := s[..|s| - 1];
      j := TrimRightTrims(front);
      assert s[j..] == front[j..] + [s[|s| - 1]] && s[..j] == front[..j];
    } else {
      j := |s|;
      assert s[..j] == s;
    }
  }

  lemma TrimSpaceTrims(s: string)
    ensures IsTrimmed(s, TrimSpace(s))
  {
    var i := TrimLeftTrims(s);
    var left := s[i..];
    var k := TrimRightTrims(left);
    var j := i + k;
    assert s[i..j] == left[..k] && s[j..] == left[k..];
  }

  /** Parts without the separator, joined by it, come apart again. */
  lemma {:induction false} SplitOfJoin(parts: seq<string>, sep: char)
    requires parts != [] && forall k :: 0 <= k < |parts| ==> sep !in parts[k]
    ensures Split(Join(parts, [sep]), sep) == parts
  {
    if |parts| == 1 {
      SplitAbsent(parts[0], sep);
      assert parts == [parts[0]];
    } else {
      SplitOfJoin(parts[1..], sep);
      SplitHead(parts[0], sep, Join(parts[1..], [sep]));
      assert parts == [parts[0]] + parts[1..];
    }
  }
}
