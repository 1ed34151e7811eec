/** A configuration struct: its tagged field tree, its leaves in preorder, and the rule for each leaf. */
module ConfigSchema {
  import opened Wrappers
  import opened Strings

  type Name = s: string | s != "" witness "A"

  datatype Kind = StringKind | BoolKind | IntKind(bits: nat) | DurationKind | StringSliceKind | OtherKind

  datatype Field = Field(name: Name, exported: bool, env: string, dflt: string, required: string, shape: Shape)

  datatype Shape = Leaf(kind: Kind) | Struct(fields: seq<Field>)

  datatype Value =
    | StringValue(text: string)
    | BoolValue(flag: bool)
    | IntValue(number: int)          // integers and durations
    | SliceValue(items: seq<string>)
    | NilValue                       // a nil slice, pointer or map
    | OtherValue(raw: string, zero: bool)

  /** reflect's IsZero: a slice is zero only when nil. */
  predicate IsZero(v: Value) {
    match v
    case StringValue(text) => text == ""
    case BoolValue(flag) => !flag
    case IntValue(number) => number == 0
    case SliceValue(_) => false
    case NilValue => true
    case OtherValue(_, zero) => zero
  }

  /** The zero values: "", false, 0 and nil; an empty slice that is not nil is not zero. */
  lemma ZeroValues(v: Value)
    ensures IsZero(v) <==> v in {StringValue(""), BoolValue(false), IntValue(0), NilValue, OtherValue(Raw(v), true)}
    ensures IsZero(v) ==> v != SliceValue([])
  {
  }

  function Raw(v: Value): string {
    if v.OtherValue? then v.raw else ""
  }

  /** The scalar parsers of strconv and time. */
  datatype Parsers = Parsers(
    duration: string -> Option<int>,
    boolean: string -> Option<bool>,
    integer: (string, nat) -> Option<int>)

  function TrimAll(parts: seq<string>): seq<string> {
    seq(|parts|, i requires 0 <= i < |parts| => TrimSpace(parts[i]))
  }

  /** setField: the value a text stands for in a field of this kind, or None when it is refused. */
  function ParseAs(p: Parsers, kind: Kind, text: string): Option<Value> {
    match kind
    case DurationKind => (match p.duration(text) case Some(n) => Some(IntValue(n)) case None => None)
    case StringKind => Some(StringValue(text))
    case BoolKind => (match p.boolean(text) case Some(b) => Some(BoolValue(b)) case None => None)
    case IntKind(bits) => (match p.integer(text, bits) case Some(n) => Some(IntValue(n)) case None => None)
    case StringSliceKind => Some(SliceValue(TrimAll(Split(text, ','))))
    case OtherKind => None
  }

  /** What a text becomes in a field: itself; what its parser reads, for the width the field has; or its
      comma-separated parts without the white space around them. No other field takes a text. */
  lemma ParsesAs(p: Parsers, bits: nat, text: string, n: int, b: bool)
    ensures ParseAs(p, StringKind, text) == Some(StringValue(text))
    ensures ParseAs(p, BoolKind, text) == Some(BoolValue(b)) <==> p.boolean(text) == Some(b)
    ensures ParseAs(p, IntKind(bits), text) == Some(IntValue(n)) <==> p.integer(text, bits) == Some(n)
    ensures ParseAs(p, DurationKind, text) == Some(IntValue(n)) <==> p.duration(text) == Some(n)
    ensures ParseAs(p, BoolKind, text).None? <==> p.boolean(text).None?
    ensures ParseAs(p, IntKind(bits), text).None? <==> p.integer(text, bits).None?
    ensures ParseAs(p, DurationKind, text).None? <==> p.duration(text).None?
    ensures ParseAs(p, OtherKind, text).None?
  {
  }

  lemma SliceParsesAs(p: Parsers, parts: seq<string>, text: string)
    requires parts != [] && text == Join(parts, ",") && forall k :: 0 <= k < |parts| ==> ',' !in parts[k]
    ensures var v := ParseAs(p, StringSliceKind, text);
            && v.Some? && v.value.SliceValue? && |v.value.items| == |parts|
            && forall k :: 0 <= k < |parts| ==> IsTrimmed(parts[k], v.value.items[k])
  {
    SplitOfJoin(parts, ',');
    forall k | 0 <= k < |parts| ensures IsTrimmed(parts[k], TrimSpace(parts[k])) {
      TrimSpaceTrims(parts[k]);
    }
  }

  // ---------------------------------------------------------------------------------------------
  // Leaves in preorder
  // ---------------------------------------------------------------------------------------------

  /** A leaf with what it inherits: whether it can be set, its ancestors' env tags and its full path. */
  datatype LeafSpec = LeafSpec(
    settable: bool, tags: seq<string>, env: string, path: seq<Name>, dflt: string, required: bool, kind: Kind)

  function LeavesOf(f: Field, settable: bool, tags: seq<string>, path: seq<Name>): seq<LeafSpec>
    decreases f, 1
  {
    match f.shape
    case Leaf(kind) =>
      [LeafSpec(settable && f.exported, tags, f.env, path + [f.name], f.dflt, f.required == "true", kind)]
    case Struct(fields) => Leaves(fields, settable && f.exported, tags + [f.env], path + [f.name])
  }

  function Leaves(fields: seq<Field>, settable: bool, tags: seq<string>, path: seq<Name>): seq<LeafSpec>
    decreases fields, 0
  {
    if fields == [] then []
    else LeavesOf(fields[0], settable, tags, path) + Leaves(fields[1..], settable, tags, path)
  }

  /** The number of value slots a field tree occupies. */
  function SizeOf(f: Field): nat
    decreases f, 1
  {
    match f.shape case Leaf(_) => 1 case Struct(fields) => Size(fields)
  }

  function Size(fields: seq<Field>): nat
    decreases fields, 0
  {
    if fields == [] then 0 else SizeOf(fields[0]) + Size(fields[1..])
  }

  lemma {:induction false} LeafCountOf(f: Field, settable: bool, tags: seq<string>, path: seq<Name>)
    ensures |LeavesOf(f, settable, tags, path)| == SizeOf(f)
    decreases f, 1
  {
    if f.shape.Struct? {
      LeafCount(f.shape.fields, settable && f.exported, tags + [f.env], path + [f.name]);
    }
  }

  lemma {:induction false} LeafCount(fields: seq<Field>, settable: bool, tags: seq<string>, path: seq<Name>)
    ensures |Leaves(fields, settable, tags, path)| == Size(fields)
    decreases fields, 0
  {
    if fields != [] {
      LeafCountOf(fields[0], settable, tags, path);
      LeafCount(fields[1..], settable, tags, path);
    }
  }

  lemma {:induction false} LeavesConcat(a: seq<Field>, b: seq<Field>, settable: bool,
                                        tags: seq<string>, path: seq<Name>)
    ensures Leaves(a + b, settable, tags, path) == Leaves(a, settable, tags, path) + Leaves(b, settable, tags, path)
    decreases |a|
  {
    if a == [] {
      assert a + b == b;
    } else {
      LeavesConcat(a[1..], b, settable, tags, path);
      assert (a + b)[1..] == a[1..] + b;
    }
  }

  /** Up to field i, field i, and the rest. */
  lemma LeavesSplit(fields: seq<Field>, i: nat, settable: bool, tags: seq<string>, path: seq<Name>)
    requires i < |fields|
    ensures Leaves(fields[..i + 1], settable, tags, path) ==
            Leaves(fields[..i], settable, tags, path) + LeavesOf(fields[i], settable, tags, path)
    ensures Leaves(fields, settable, tags, path) ==
            Leaves(fields[..i + 1], settable, tags, path) + Leaves(fields[i + 1..], settable, tags, path)
  {
    assert fields[..i + 1] == fields[..i] + [fields[i]] && fields == fields[..i + 1] + fields[i + 1..];
    LeavesConcat(fields[..i], [fields[i]], settable, tags, path);
    LeavesConcat(fields[..i + 1], fields[i + 1..], settable, tags, path);
    assert Leaves([], settable, tags, path) == [] && [fields[i]][1..] == [];
    assert Leaves([fields[i]], settable, tags, path) == LeavesOf(fields[i], settable, tags, path) + [];
  }

  /** Under an unexported field nothing can be set. */
  lemma {:induction false} NoneSettable(fields: seq<Field>, tags: seq<string>, path: seq<Name>)
    ensures forall i :: 0 <= i < |Leaves(fields, false, tags, path)| ==> !Leaves(fields, false, tags, path)[i].settable
    decreases fields, 0
  {
    if fields != [] {
      NoneSettableOf(fields[0], false, tags, path);
      NoneSettable(fields[1..], tags, path);
    }
  }

  lemma {:induction false} NoneSettableOf(f: Field, settable: bool, tags: seq<string>, path: seq<Name>)
    requires !settable || !f.exported
    ensures forall i :: 0 <= i < |LeavesOf(f, settable, tags, path)| ==> !LeavesOf(f, settable, tags, path)[i].settable
    decreases f, 1
  {
    if f.shape.Struct? {
      NoneSettable(f.shape.fields, tags + [f.env], path + [f.name]);
    }
  }

  /** A way down the tree: each field but the last is a struct that holds the next, the last is a leaf. */
  ghost predicate IsTrail(fields: seq<Field>, trail: seq<Field>)
    decreases |trail|
  {
    && trail != [] && trail[0] in fields
    && match trail[0].shape
       case Leaf(_) => |trail| == 1
       case Struct(inner) => IsTrail(inner, trail[1..])
  }

  /** The leaf at the end of a trail: it can be set if all fields on the way are exported, it inherits the
      env tags of all structs on the way, and its path are all their names and its own. */
  ghost predicate EndsTrail(leaf: LeafSpec, trail: seq<Field>, settable: bool, tags: seq<string>, path: seq<Name>)
    requires trail != []
  {
    var n := |trail| - 1;
    && (leaf.settable <==> settable && AllExported(trail))
    && leaf.tags == tags + EnvsOf(trail[..n])
    && leaf.path == path + NamesOf(trail)
    && leaf.env == trail[n].env && leaf.dflt == trail[n].dflt
    && (leaf.required <==> trail[n].required == "true")
    && trail[n].shape == Leaf(leaf.kind)
  }

  predicate AllExported(trail: seq<Field>) {
    forall f :: f in trail ==> f.exported
  }

  lemma EndsTrailFurtherUp(leaf: LeafSpec, f: Field, trail: seq<Field>, settable: bool, tags: seq<string>,
                           path: seq<Name>)
    requires trail != []
    ensures EndsTrail(leaf, trail, settable && f.exported, tags + [f.env], path + [f.name]) <==>
            EndsTrail(leaf, [f] + trail, settable, tags, path)
  {
    var n, longer := |trail| - 1, [f] + trail;
    assert longer[n + 1] == trail[n] && longer[..n + 1] == [f] + trail[..n];
    EnvsAndNames(f, trail[..n]);
    EnvsAndNames(f, trail);
    assert tags + [f.env] + EnvsOf(trail[..n]) == tags + EnvsOf(longer[..n + 1]);
    assert path + [f.name] + NamesOf(trail) == path + NamesOf(longer);
    assert AllExported(longer) <==> f.exported && AllExported(trail) by {
      assert forall g :: g in longer <==> g == f || g in trail;
    }
  }

  function EnvsOf(trail: seq<Field>): seq<string> {
    seq(|trail|, i requires 0 <= i < |trail| => trail[i].env)
  }

  function NamesOf(trail: seq<Field>): seq<Name> {
    seq(|trail|, i requires 0 <= i < |trail| => trail[i].name)
  }

  lemma EnvsAndNames(f: Field, trail: seq<Field>)
    ensures EnvsOf([f] + trail) == [f.env] + EnvsOf(trail)
    ensures NamesOf([f] + trail) == [f.name] + NamesOf(trail)
  {
  }

  lemma {:induction false} LeafHasTrail(leaf: LeafSpec, fields: seq<Field>, settable: bool,
                                        tags: seq<string>, path: seq<Name>)
    returns (trail: seq<Field>)
    requires leaf in Leaves(fields, settable, tags, path)
    ensures IsTrail(fields, trail) && EndsTrail(leaf, trail, settable, tags, path)
    decreases fields, 0
  {
    if leaf in LeavesOf(fields[0], settable, tags, path) {
      trail := LeafOfHasTrail(leaf, fields[0], settable, tags, path);
    } else {
      trail := LeafHasTrail(leaf, fields[1..], settable, tags, path);
    }
  }

  lemma {:induction false} LeafOfHasTrail(leaf: LeafSpec, f: Field, settable: bool, tags: seq<string>, path: seq<Name>)
    returns (trail: seq<Field>)
    requires leaf in LeavesOf(f, settable, tags, path)
    ensures IsTrail([f], trail) && trail[0] == f && EndsTrail(leaf, trail, settable, tags, path)
    decreases f, 1
  {
    match f.shape
    case Leaf(_) => trail := [f];
    case Struct(inner) =>
      var rest := LeafHasTrail(leaf, inner, settable && f.exported, tags + [f.env], path + [f.name]);
      trail := [f] + rest;
      assert trail[1..] == rest;
      EndsTrailFurtherUp(leaf, f, rest, settable, tags, path);
  }

  lemma {:induction false} LeavesHaveMembers(fields: seq<Field>, f: Field, settable: bool,
                                             tags: seq<string>, path: seq<Name>)
    requires f in fields
    ensures forall leaf :: leaf in LeavesOf(f, settable, tags, path) ==> leaf in Leaves(fields, settable, tags, path)
    decreases |fields|
  {
    if fields[0] != f {
      LeavesHaveMembers(fields[1..], f, settable, tags, path);
    }
  }

  lemma {:induction false} TrailHasLeaf(leaf: LeafSpec, fields: seq<Field>, trail: seq<Field>, settable: bool,
                                        tags: seq<string>, path: seq<Name>)
    requires IsTrail(fields, trail) && EndsTrail(leaf, trail, settable, tags, path)
    ensures leaf in Leaves(fields, settable, tags, path)
    decreases |trail|
  {
    var f := trail[0];
    LeavesHaveMembers(fields, f, settable, tags, path);
    match f.shape
    case Leaf(_) => assert leaf == LeavesOf(f, settable, tags, path)[0];
    case Struct(inner) =>
      assert trail == [f] + trail[1..];
      EndsTrailFurtherUp(leaf, f, trail[1..], settable, tags, path);
      TrailHasLeaf(leaf, inner, trail[1..], settable && f.exported, tags + [f.env], path + [f.name]);
  }

  /** The leaves of a struct are exactly the ends of the ways down its tree. */
  lemma LeavesAreTrails(fields: seq<Field>, leaf: LeafSpec)
    ensures leaf in Leaves(fields, true, [], []) <==>
            exists trail :: IsTrail(fields, trail) && EndsTrail(leaf, trail, true, [], [])
  {
    if leaf in Leaves(fields, true, [], []) {
      var trail := LeafHasTrail(leaf, fields, true, [], []);
    }
    if exists trail :: IsTrail(fields, trail) && EndsTrail(leaf, trail, true, [], []) {
      var trail :| IsTrail(fields, trail) && EndsTrail(leaf, trail, true, [], []);
      TrailHasLeaf(leaf, fields, trail, true, [], []);
    }
  }

  // ---------------------------------------------------------------------------------------------
  // Environment keys and dotted paths
  // ---------------------------------------------------------------------------------------------

  function NonEmpty(parts: seq<string>): seq<string> {
    if parts == [] then []
    else (if parts[0] == "" then [] else [parts[0]]) + NonEmpty(parts[1..])
  }

  /** The non-empty parts, joined. */
  function JoinNonEmpty(parts: seq<string>, sep: string): string {
    Join(NonEmpty(parts), sep)
  }

  /** The code's way: one part appended to what was accumulated so far. */
  function Extend(acc: string, part: string, sep: string): string {
    if part == "" then acc else if acc == "" then part else acc + sep + part
  }

  lemma {:induction false} NonEmptySnoc(parts: seq<string>, part: string)
    ensures NonEmpty(parts + [part]) == NonEmpty(parts) + (if part == "" then [] else [part])
  {
    if parts == [] {
      assert [part][1..] == [];
    } else {
      NonEmptySnoc(parts[1..], part);
      assert (parts + [part])[1..] == parts[1..] + [part];
    }
  }

  lemma {:induction false} JoinSnoc(parts: seq<string>, part: string, sep: string)
    requires forall i :: 0 <= i < |parts| ==> parts[i] != ""
    ensures Join(parts + [part], sep) == if parts == [] then part else Join(parts, sep) + sep + part
    ensures parts != [] ==> Join(parts, sep) != ""
  {
    if |parts| > 0 {
      JoinSnoc(parts[1..], part, sep);
      assert (parts + [part])[1..] == parts[1..] + [part];
      assert |parts| == 1 ==> parts[1..] == [];
    }
  }

  lemma {:induction false} AllNonEmpty(parts: seq<string>)
    ensures forall i :: 0 <= i < |NonEmpty(parts)| ==> NonEmpty(parts)[i] != ""
  {
    if parts != [] {
      AllNonEmpty(parts[1..]);
    }
  }

  /** Accumulating parts one by one is joining the non-empty ones. */
  lemma ExtendIsJoin(parts: seq<string>, part: string, sep: string)
    ensures JoinNonEmpty(parts + [part], sep) == Extend(JoinNonEmpty(parts, sep), part, sep)
    ensures var joined := JoinNonEmpty(parts, sep);
            JoinNonEmpty(parts + [part], sep) ==
            if part == "" then joined else if joined == "" then part else joined + sep + part
    ensures JoinNonEmpty([], sep) == ""
  {
    NonEmptySnoc(parts, part);
    AllNonEmpty(parts);
    JoinSnoc(NonEmpty(parts), part, sep);
    assert part == "" ==> NonEmpty(parts) + [] == NonEmpty(parts);
  }

  /** The environment variable a leaf reads: the prefix, the ancestors' tags and its own tag. */
  function EnvKey(prefix: string, leaf: LeafSpec): string {
    JoinNonEmpty([prefix] + leaf.tags + [leaf.env], "_")
  }

  /** The keys themselves: prefix, ancestors' tags and own tag in this order with an underscore between
      those there are. */
  lemma EnvKeysAre(prefix: string, leaf: LeafSpec, tag: string)
    requires leaf.env != ""
    ensures leaf.tags == [] ==> EnvKey(prefix, leaf) == if prefix == "" then leaf.env else prefix + "_" + leaf.env
    ensures var outer := JoinNonEmpty([prefix] + leaf.tags, "_");
            && EnvKey(prefix, leaf) == (if outer == "" then leaf.env else outer + "_" + leaf.env)
            && JoinNonEmpty([prefix] + (leaf.tags + [tag]), "_") ==
               if tag == "" then outer else if outer == "" then tag else outer + "_" + tag
  {
    ExtendIsJoin([prefix] + leaf.tags, leaf.env, "_");
    ExtendIsJoin([prefix] + leaf.tags, tag, "_");
    ExtendIsJoin([], prefix, "_");
    assert [prefix] + leaf.tags + [tag] == [prefix] + (leaf.tags + [tag]);
    assert leaf.tags == [] ==> [prefix] + leaf.tags == [] + [prefix];
  }

  function Dotted(path: seq<Name>): string {
    Join(path, ".")
  }

  lemma DottedSnoc(path: seq<Name>, name: Name)
    ensures Dotted(path + [name]) == Extend(Dotted(path), name, ".")
    ensures Dotted(path + [name]) == if path == [] then name else Dotted(path) + "." + name
  {
    JoinSnoc(path, name, ".");
  }

  // ---------------------------------------------------------------------------------------------
  // The rule for one leaf in each stage
  // ---------------------------------------------------------------------------------------------

  datatype Stage = Defaults | FromEnv(vars: map<string, string>, prefix: string)

  /** What a stage makes of a leaf that holds v; None when it must fail there. */
  function Wanted(p: Parsers, stage: Stage, leaf: LeafSpec, v: Value): Option<Value> {
    match stage
    case Defaults =>
      if !leaf.settable || leaf.dflt == "" || !IsZero(v) then Some(v) else ParseAs(p, leaf.kind, leaf.dflt)
    case FromEnv(vars, prefix) =>
      if !leaf.settable || leaf.env == "" || EnvKey(prefix, leaf) !in vars then Some(v)
      else ParseAs(p, leaf.kind, vars[EnvKey(prefix, leaf)])
  }

  /** before became after by running a stage over the leaves stored from base on; failed is the first
      leaf it refused. Leaves before that hold what the stage wants; everything else is untouched. */
  ghost predicate Ran(p: Parsers, stage: Stage, leaves: seq<LeafSpec>, before: seq<Value>, after: seq<Value>,
                      base: nat, failed: Option<nat>)
  {
    var stop := if failed.Some? then failed.value else |leaves|;
    && |before| == |after| && base + |leaves| <= |before|
    && (failed.Some? ==> stop < |leaves| && Wanted(p, stage, leaves[stop], before[base + stop]).None?)
    && (forall i :: 0 <= i < stop ==> Wanted(p, stage, leaves[i], before[base + i]) == Some(after[base + i]))
    && (forall m :: 0 <= m < |before| && !(base <= m < base + stop) ==> after[m] == before[m])
  }

  lemma RanThen(p: Parsers, stage: Stage, a: seq<LeafSpec>, b: seq<LeafSpec>,
                s0: seq<Value>, s1: seq<Value>, s2: seq<Value>, base: nat, failed: Option<nat>)
    requires Ran(p, stage, a, s0, s1, base, None) && Ran(p, stage, b, s1, s2, base + |a|, failed)
    ensures Ran(p, stage, a + b, s0, s2, base, if failed.Some? then Some(|a| + failed.value) else None)
  {
    var stop := if failed.Some? then failed.value else |b|;
    forall i | 0 <= i < |a| + stop
      ensures Wanted(p, stage, (a + b)[i], s0[base + i]) == Some(s2[base + i])
    {
      if i < |a| {
        assert s2[base + i] == s1[base + i];
      } else {
        assert s0[base + i] == s1[base + i] && base + i == base + |a| + (i - |a|);
      }
    }
  }

  lemma RanPrefix(p: Parsers, stage: Stage, a: seq<LeafSpec>, b: seq<LeafSpec>,
                  before: seq<Value>, after: seq<Value>, base: nat, failed: nat)
    requires Ran(p, stage, a, before, after, base, Some(failed)) && base + |a| + |b| <= |before|
    ensures Ran(p, stage, a + b, before, after, base, Some(failed))
  {
  }

  /** A stage has covered the fields before i, which end at slot at. */
  ghost predicate Covered(p: Parsers, stage: Stage, fields: seq<Field>, i: nat, tags: seq<string>, path: seq<Name>,
                          before: seq<Value>, after: seq<Value>, base: nat, at: nat)
    requires i <= |fields|
  {
    && at == base + |Leaves(fields[..i], true, tags, path)|
    && Ran(p, stage, Leaves(fields[..i], true, tags, path), before, after, base, None)
  }

  /** One field further: the stage covers field i as well. */
  lemma CoverField(p: Parsers, stage: Stage, fields: seq<Field>, i: nat, tags: seq<string>, path: seq<Name>,
                   s0: seq<Value>, s1: seq<Value>, s2: seq<Value>, base: nat, at: nat)
    requires i < |fields|
    requires Covered(p, stage, fields, i, tags, path, s0, s1, base, at)
    requires Ran(p, stage, LeavesOf(fields[i], true, tags, path), s1, s2, at, None)
    ensures Covered(p, stage, fields, i + 1, tags, path, s0, s2, base, at + SizeOf(fields[i]))
  {
    LeavesSplit(fields, i, true, tags, path);
    LeafCountOf(fields[i], true, tags, path);
    RanThen(p, stage, Leaves(fields[..i], true, tags, path), LeavesOf(fields[i], true, tags, path),
            s0, s1, s2, base, None);
  }

  lemma LeavesAfter(fields: seq<Field>, i: nat, tags: seq<string>, path: seq<Name>) returns (rest: seq<LeafSpec>)
    requires i < |fields|
    ensures Leaves(fields, true, tags, path) ==
            Leaves(fields[..i], true, tags, path) + LeavesOf(fields[i], true, tags, path) + rest
    ensures |Leaves(fields[..i], true, tags, path)| + |LeavesOf(fields[i], true, tags, path)| + |rest| == Size(fields)
  {
    rest := Leaves(fields[i + 1..], true, tags, path);
    LeavesSplit(fields, i, true, tags, path);
    LeafCount(fields, true, tags, path);
  }

  /** Or it stops inside field i for good, at leaf k of the whole. */
  lemma StopInField(p: Parsers, stage: Stage, fields: seq<Field>, i: nat, tags: seq<string>, path: seq<Name>,
                    s0: seq<Value>, s1: seq<Value>, s2: seq<Value>, base: nat, at: nat, failed: nat)
    requires i < |fields| && base + Size(fields) <= |s0|
    requires Covered(p, stage, fields, i, tags, path, s0, s1, base, at)
    requires Ran(p, stage, LeavesOf(fields[i], true, tags, path), s1, s2, at, Some(failed))
    ensures Ran(p, stage, Leaves(fields, true, tags, path), s0, s2, base, Some(at - base + failed))
    ensures Leaves(fields, true, tags, path)[at - base + failed] == LeavesOf(fields[i], true, tags, path)[failed]
  {
    var done, next := Leaves(fields[..i], true, tags, path), LeavesOf(fields[i], true, tags, path);
    var rest := LeavesAfter(fields, i, tags, path);
    StopInside(p, stage, Leaves(fields, true, tags, path), done, next, rest, s0, s1, s2, base, at, failed);
  }

  lemma StopInside(p: Parsers, stage: Stage, all: seq<LeafSpec>,
                   done: seq<LeafSpec>, next: seq<LeafSpec>, rest: seq<LeafSpec>,
                   s0: seq<Value>, s1: seq<Value>, s2: seq<Value>, base: nat, at: nat, failed: nat)
    requires all == done + next + rest && base + |all| <= |s0| && at == base + |done|
    requires Ran(p, stage, done, s0, s1, base, None) && Ran(p, stage, next, s1, s2, at, Some(failed))
    ensures Ran(p, stage, all, s0, s2, base, Some(at - base + failed))
    ensures all[at - base + failed] == next[failed]
  {
    RanThen(p, stage, done, next, s0, s1, s2, base, Some(failed));
    RanPrefix(p, stage, done + next, rest, s0, s2, base, |done| + failed);
  }

  lemma CoveredNothing(p: Parsers, stage: Stage, fields: seq<Field>, tags: seq<string>, path: seq<Name>,
                       s: seq<Value>, base: nat)
    requires base <= |s|
    ensures Covered(p, stage, fields, 0, tags, path, s, s, base, base)
  {
  }

  lemma CoveredAll(p: Parsers, stage: Stage, fields: seq<Field>, tags: seq<string>, path: seq<Name>,
                   s0: seq<Value>, s1: seq<Value>, base: nat, at: nat)
    requires Covered(p, stage, fields, |fields|, tags, path, s0, s1, base, at)
    ensures Ran(p, stage, Leaves(fields, true, tags, path), s0, s1, base, None)
  {
    assert fields[..|fields|] == fields;
  }

  /** Room for field i after the fields before it. */
  lemma FieldFits(p: Parsers, stage: Stage, fields: seq<Field>, i: nat, tags: seq<string>, path: seq<Name>,
                  s0: seq<Value>, s1: seq<Value>, base: nat, at: nat)
    requires i < |fields| && Covered(p, stage, fields, i, tags, path, s0, s1, base, at)
    ensures base <= at && at + SizeOf(fields[i]) <= base + Size(fields)
  {
    LeavesSplit(fields, i, true, tags, path);
    LeafCountOf(fields[i], true, tags, path);
    LeafCount(fields, true, tags, path);
  }

  /** A stage passes over leaves that cannot be set. */
  lemma RanOverUnsettable(p: Parsers, stage: Stage, leaves: seq<LeafSpec>, s: seq<Value>, base: nat)
    requires base + |leaves| <= |s| && forall i :: 0 <= i < |leaves| ==> !leaves[i].settable
    ensures Ran(p, stage, leaves, s, s, base, None)
  {
  }

  /** The outcome of a stage is determined by its input. */
  lemma RanIsUnique(p: Parsers, stage: Stage, leaves: seq<LeafSpec>, before: seq<Value>,
                    after1: seq<Value>, after2: seq<Value>, base: nat, f1: Option<nat>, f2: Option<nat>)
    requires Ran(p, stage, leaves, before, after1, base, f1) && Ran(p, stage, leaves, before, after2, base, f2)
    ensures f1 == f2 && after1 == after2
  {
    var stop1 := if f1.Some? then f1.value else |leaves|;
    var stop2 := if f2.Some? then f2.value else |leaves|;
    assert stop1 == stop2;
    forall m | 0 <= m < |before| ensures after1[m] == after2[m] {
      if base <= m < base + stop1 {
        assert Wanted(p, stage, leaves[m - base], before[base + (m - base)]) == Some(after1[base + (m - base)]);
      }
    }
  }
}
