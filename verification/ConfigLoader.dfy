/** Layered configuration loading: three passes over a struct in place, then validation. The struct's
    values live in an array, one slot per leaf in preorder, and each pass writes through it. */
module ConfigLoader {
  import opened Wrappers
  import opened Strings
  import opened ConfigSchema

  datatype LoadError =
    | BadTarget
    | BadDefault(field: string)
    | BadEnv(field: string, key: string)
    | BadFile
    | MissingRequired(path: string)
    | Invalid

  function LastName(leaf: LeafSpec): string {
    if leaf.path == [] then "" else leaf.path[|leaf.path| - 1]
  }

  /** The comma-separated list, each part trimmed in place. */
  method SplitAndTrim(text: string) returns (items: seq<string>)
    ensures items == TrimAll(Split(text, ','))
  {
    items := Split(text, ',');
    ghost var parts := items;
    var i := 0;
    while i < |items|
      invariant 0 <= i <= |items| == |parts|
      invariant forall k :: 0 <= k < i ==> items[k] == TrimSpace(parts[k])
      invariant forall k :: i <= k < |items| ==> items[k] == parts[k]
    {
      items := items[i := TrimSpace(items[i])];
      i := i + 1;
    }
  }

  /** setField: parse and store, or leave the slot alone. */
  method SetField(p: Parsers, kind: Kind, text: string, values: array<Value>, at: nat) returns (ok: bool)
    requires at < values.Length
    modifies values
    ensures ok <==> ParseAs(p, kind, text).Some?
    ensures values[..] == if ok then old(values[..])[at := ParseAs(p, kind, text).value] else old(values[..])
  {
    if kind.StringSliceKind? {
      var items := SplitAndTrim(text);
      values[at] := SliceValue(items);
      return true;
    }
    var v := ParseAs(p, kind, text);
    if v.None? {
      return false;
    }
    values[at] := v.value;
    return true;
  }

  // ---------------------------------------------------------------------------------------------
  // Defaults
  // ---------------------------------------------------------------------------------------------

  method ApplyDefaults(p: Parsers, fields: seq<Field>, values: array<Value>, base: nat,
                       ghost tags: seq<string>, ghost path: seq<Name>)
    returns (err: Option<LoadError>, ghost failed: Option<nat>)
    requires base + Size(fields) <= values.Length
    modifies values
    ensures Ran(p, Defaults, Leaves(fields, true, tags, path), old(values[..]), values[..], base, failed)
    ensures err == match failed
                   case None => None
                   case Some(k) => Some(BadDefault(LastName(Leaves(fields, true, tags, path)[k])))
    decreases fields, 0
  {
    err, failed := None, None;
    ghost var start := values[..];
    var i, at := 0, base;
    CoveredNothing(p, Defaults, fields, tags, path, start, base);
    while i < |fields|
      invariant 0 <= i <= |fields| && base <= at && err.None? && failed.None?
      invariant Covered(p, Defaults, fields, i, tags, path, start, values[..], base, at)
    {
      ghost var reached := values[..];
      FieldFits(p, Defaults, fields, i, tags, path, start, reached, base, at);
      err, failed := DefaultField(p, fields[i], values, at, tags, path);
      if err.Some? {
        StopInField(p, Defaults, fields, i, tags, path, start, reached, values[..], base, at, failed.value);
        failed := Some(at - base + failed.value);
        return;
      }
      CoverField(p, Defaults, fields, i, tags, path, start, reached, values[..], base, at);
      i, at := i + 1, at + SizeOf(fields[i]);
    }
    CoveredAll(p, Defaults, fields, tags, path, start, values[..], base, at);
  }

  // One turn of the loop.
  method DefaultField(p: Parsers, f: Field, values: array<Value>, at: nat,
                      ghost tags: seq<string>, ghost path: seq<Name>)
    returns (err: Option<LoadError>, ghost failed: Option<nat>)
    requires at + SizeOf(f) <= values.Length
    modifies values
    ensures Ran(p, Defaults, LeavesOf(f, true, tags, path), old(values[..]), values[..], at, failed)
    ensures err == match failed
                   case None => None
                   case Some(k) => Some(BadDefault(LastName(LeavesOf(f, true, tags, path)[k])))
    decreases f, 1
  {
    err, failed := None, None;
    LeafCountOf(f, true, tags, path);
    if !f.exported {
      NoneSettableOf(f, true, tags, path);
      RanOverUnsettable(p, Defaults, LeavesOf(f, true, tags, path), values[..], at);
      return;
    }
    match f.shape {
      case Struct(fields) =>
        err, failed := ApplyDefaults(p, fields, values, at, tags + [f.env], path + [f.name]);
      case Leaf(kind) =>
        if f.dflt == "" || !IsZero(values[at]) {
          return;
        }
        var ok := SetField(p, kind, f.dflt, values, at);
        if !ok {
          err, failed := Some(BadDefault(f.name)), Some(0);
        }
    }
  }

  // ---------------------------------------------------------------------------------------------
  // Environment variables
  // ---------------------------------------------------------------------------------------------

  method ApplyEnv(p: Parsers, fields: seq<Field>, values: array<Value>, base: nat, vars: map<string, string>,
                  prefix: string, ghost globalPrefix: string, ghost tags: seq<string>, ghost path: seq<Name>)
    returns (err: Option<LoadError>, ghost failed: Option<nat>)
    requires base + Size(fields) <= values.Length
    requires prefix == JoinNonEmpty([globalPrefix] + tags, "_")
    modifies values
    ensures Ran(p, FromEnv(vars, globalPrefix), Leaves(fields, true, tags, path), old(values[..]), values[..],
                base, failed)
    ensures err == match failed
                   case None => None
                   case Some(k) => Some(EnvError(globalPrefix, Leaves(fields, true, tags, path)[k]))
    decreases fields, 0
  {
    err, failed := None, None;
    ghost var stage := FromEnv(vars, globalPrefix);
    ghost var start := values[..];
    var i, at := 0, base;
    CoveredNothing(p, stage, fields, tags, path, start, base);
    while i < |fields|
      invariant 0 <= i <= |fields| && base <= at && err.None? && failed.None?
      invariant Covered(p, stage, fields, i, tags, path, start, values[..], base, at)
    {
      ghost var reached := values[..];
      FieldFits(p, stage, fields, i, tags, path, start, reached, base, at);
      err, failed := EnvField(p, fields[i], values, at, vars, prefix, globalPrefix, tags, path);
      if err.Some? {
        StopInField(p, stage, fields, i, tags, path, start, reached, values[..], base, at, failed.value);
        failed := Some(at - base + failed.value);
        return;
      }
      CoverField(p, stage, fields, i, tags, path, start, reached, values[..], base, at);
      i, at := i + 1, at + SizeOf(fields[i]);
    }
    CoveredAll(p, stage, fields, tags, path, start, values[..], base, at);
  }

  lemma KeyGrows(globalPrefix: string, tags: seq<string>, env: string)
    ensures var grown := Extend(JoinNonEmpty([globalPrefix] + tags, "_"), env, "_");
            && JoinNonEmpty([globalPrefix] + tags + [env], "_") == grown
            && JoinNonEmpty([globalPrefix] + (tags + [env]), "_") == grown
  {
    ExtendIsJoin([globalPrefix] + tags, env, "_");
    assert [globalPrefix] + tags + [env] == [globalPrefix] + (tags + [env]);
  }

  function EnvError(globalPrefix: string, leaf: LeafSpec): LoadError {
    BadEnv(LastName(leaf), EnvKey(globalPrefix, leaf))
  }

  // One turn of the loop.
  method EnvField(p: Parsers, f: Field, values: array<Value>, at: nat, vars: map<string, string>,
                  prefix: string, ghost globalPrefix: string, ghost tags: seq<string>, ghost path: seq<Name>)
    returns (err: Option<LoadError>, ghost failed: Option<nat>)
    requires at + SizeOf(f) <= values.Length
    requires prefix == JoinNonEmpty([globalPrefix] + tags, "_")
    modifies values
    ensures Ran(p, FromEnv(vars, globalPrefix), LeavesOf(f, true, tags, path), old(values[..]), values[..], at, failed)
    ensures err == match failed
                   case None => None
                   case Some(k) => Some(EnvError(globalPrefix, LeavesOf(f, true, tags, path)[k]))
    decreases f, 1
  {
    err, failed := None, None;
    LeafCountOf(f, true, tags, path);
    if !f.exported {
      NoneSettableOf(f, true, tags, path);
      RanOverUnsettable(p, FromEnv(vars, globalPrefix), LeavesOf(f, true, tags, path), values[..], at);
      return;
    }
    KeyGrows(globalPrefix, tags, f.env);
    match f.shape {
      case Struct(fields) =>
        var nestedPrefix := prefix;
        if f.env != "" {
          nestedPrefix := if nestedPrefix != "" then nestedPrefix + "_" + f.env else f.env;
        }
        err, failed := ApplyEnv(p, fields, values, at, vars, nestedPrefix, globalPrefix,
                                tags + [f.env], path + [f.name]);
      case Leaf(kind) =>
        if f.env == "" {
          return;
        }
        var key := f.env;
        if prefix != "" {
          key := prefix + "_" + f.env;
        }
        if key !in vars {
          return;
        }
        var ok := SetField(p, kind, vars[key], values, at);
        if !ok {
          err, failed := Some(BadEnv(f.name, key)), Some(0);
        }
    }
  }

  // ---------------------------------------------------------------------------------------------
  // Required fields
  // ---------------------------------------------------------------------------------------------

  /** validateRequired over one struct stored from base on: the path of the first missing field. */
  function MissingIn(fields: seq<Field>, values: seq<Value>, base: nat, path: string): Option<string>
    requires base + Size(fields) <= |values|
    decreases fields, 0
  {
    if fields == [] then None
    else match MissingAt(fields[0], values, base, path)
      case Some(missing) => Some(missing)
      case None => MissingIn(fields[1..], values, base + SizeOf(fields[0]), path)
  }

  function MissingAt(f: Field, values: seq<Value>, at: nat, path: string): Option<string>
    requires at + SizeOf(f) <= |values|
    decreases f, 1
  {
    var fieldPath := if path != "" then path + "." + f.name else f.name;
    if !f.exported then None
    else match f.shape
      case Struct(fields) => MissingIn(fields, values, at, fieldPath)
      case Leaf(_) => if f.required == "true" && IsZero(values[at]) then Some(fieldPath) else None
  }

  predicate Missing(leaf: LeafSpec, v: Value) {
    leaf.settable && leaf.required && IsZero(v)
  }

  /** Either nothing is missing, or result is the dotted path of the preorder-first missing leaf. */
  ghost predicate FirstMissing(leaves: seq<LeafSpec>, values: seq<Value>, base: nat, result: Option<string>)
    requires base + |leaves| <= |values|
  {
    match result
    case None => forall i :: 0 <= i < |leaves| ==> !Missing(leaves[i], values[base + i])
    case Some(dotted) =>
      exists k :: 0 <= k < |leaves| && Missing(leaves[k], values[base + k]) && Dotted(leaves[k].path) == dotted
        && forall i :: 0 <= i < k ==> !Missing(leaves[i], values[base + i])
  }

  lemma FirstMissingThen(a: seq<LeafSpec>, b: seq<LeafSpec>, values: seq<Value>, base: nat,
                         ra: Option<string>, rb: Option<string>)
    requires base + |a| + |b| <= |values|
    requires FirstMissing(a, values, base, ra)
    requires ra.None? ==> FirstMissing(b, values, base + |a|, rb)
    ensures FirstMissing(a + b, values, base, if ra.Some? then ra else rb)
  {
    if ra.Some? {
      var k :| 0 <= k < |a| && Missing(a[k], values[base + k]) && Dotted(a[k].path) == ra.value
        && forall i :: 0 <= i < k ==> !Missing(a[i], values[base + i]);
      assert (a + b)[k] == a[k];
    } else {
      forall i | 0 <= i < |a| ensures !Missing((a + b)[i], values[base + i]) {
        assert (a + b)[i] == a[i];
      }
      assert forall i :: 0 <= i < |b| ==> (a + b)[|a| + i] == b[i] && base + (|a| + i) == base + |a| + i;
      if rb.Some? {
        var k :| 0 <= k < |b| && Missing(b[k], values[base + |a| + k]) && Dotted(b[k].path) == rb.value
          && forall i :: 0 <= i < k ==> !Missing(b[i], values[base + |a| + i]);
        ShiftedFirst(a, b, values, base, k);
      } else {
        forall i | |a| <= i < |a| + |b| ensures !Missing((a + b)[i], values[base + i]) {
          assert !Missing(b[i - |a|], values[base + |a| + (i - |a|)]);
        }
      }
    }
  }

  lemma ShiftedFirst(a: seq<LeafSpec>, b: seq<LeafSpec>, values: seq<Value>, base: nat, k: nat)
    requires base + |a| + |b| <= |values| && k < |b|
    requires Missing(b[k], values[base + |a| + k])
    requires forall i :: 0 <= i < |a| ==> !Missing(a[i], values[base + i])
    requires forall i :: 0 <= i < k ==> !Missing(b[i], values[base + |a| + i])
    ensures FirstMissing(a + b, values, base, Some(Dotted(b[k].path)))
  {
    var m := |a| + k;
    assert (a + b)[m] == b[k] && base + m == base + |a| + k;
    forall i | 0 <= i < m ensures !Missing((a + b)[i], values[base + i]) {
      if i >= |a| {
        assert !Missing(b[i - |a|], values[base + |a| + (i - |a|)]);
      }
    }
  }

  /** validateRequired fails exactly when some required leaf is zero, and names the preorder-first one. */
  lemma {:induction false} MissingIsFirst(fields: seq<Field>, values: seq<Value>, base: nat,
                                          tags: seq<string>, path: seq<Name>)
    requires base + Size(fields) <= |values|
    ensures |Leaves(fields, true, tags, path)| == Size(fields)
    ensures FirstMissing(Leaves(fields, true, tags, path), values, base, MissingIn(fields, values, base, Dotted(path)))
    decreases fields, 0
  {
    LeafCount(fields, true, tags, path);
    if fields != [] {
      LeafCountOf(fields[0], true, tags, path);
      LeafCount(fields[1..], true, tags, path);
      MissingAtIsFirst(fields[0], values, base, tags, path);
      MissingIsFirst(fields[1..], values, base + SizeOf(fields[0]), tags, path);
      FirstMissingThen(LeavesOf(fields[0], true, tags, path), Leaves(fields[1..], true, tags, path), values, base,
                       MissingAt(fields[0], values, base, Dotted(path)),
                       MissingIn(fields[1..], values, base + SizeOf(fields[0]), Dotted(path)));
    }
  }

  lemma {:induction false} MissingAtIsFirst(f: Field, values: seq<Value>, at: nat, tags: seq<string>, path: seq<Name>)
    requires at + SizeOf(f) <= |values|
    ensures |LeavesOf(f, true, tags, path)| == SizeOf(f)
    ensures FirstMissing(LeavesOf(f, true, tags, path), values, at, MissingAt(f, values, at, Dotted(path)))
    decreases f, 1
  {
    LeafCountOf(f, true, tags, path);
    DottedSnoc(path, f.name);
    if !f.exported {
      NoneSettableOf(f, true, tags, path);
    } else if f.shape.Struct? {
      MissingIsFirst(f.shape.fields, values, at, tags + [f.env], path + [f.name]);
    } else {
      var leaf := LeavesOf(f, true, tags, path)[0];
      assert leaf.path == path + [f.name];
    }
  }

  // ---------------------------------------------------------------------------------------------
  // Load
  // ---------------------------------------------------------------------------------------------

  /** What the file contributes: nothing (none configured, or missing), a partial overlay of the slots,
      or a failure, which may have written some slots before it. */
  datatype File = NoFile | Overlay(slots: map<nat, Value>) | Unreadable(written: map<nat, Value>)

  function Overlaid(values: seq<Value>, slots: map<nat, Value>): seq<Value> {
    seq(|values|, i requires 0 <= i < |values| => if i in slots then slots[i] else values[i])
  }

  function SlotsOf(file: File): map<nat, Value> {
    match file case NoFile => map[] case Overlay(slots) => slots case Unreadable(written) => written
  }

  /** What a decoder makes of a file's bytes: the slots it writes, and whether it then fails. */
  datatype Decoded = Decoded(slots: map<nat, Value>, ok: bool)

  /** What reading the configured path finds. */
  datatype Disk = Absent | ReadError | Content(yaml: Decoded, json: Decoded)

  predicate Traverses(path: string) {
    exists i :: 0 <= i < |path| - 1 && path[i] == '.' && path[i + 1] == '.'
  }

  /** A path traverses upwards when it holds two dots in a row. */
  lemma TraversesExactly(path: string)
    ensures Traverses(path) <==> exists a, b :: path == a + ".." + b
  {
    if Traverses(path) {
      var i :| 0 <= i < |path| - 1 && path[i] == '.' && path[i + 1] == '.';
      assert path == path[..i] + ".." + path[i + 2..];
    }
    if exists a, b :: path == a + ".." + b {
      var a, b :| path == a + ".." + b;
      assert path[|a|] == '.' && path[|a| + 1] == '.';
    }
  }

  lemma LowerIs(c: char)
    ensures Lower('A') == 'a' && Lower('Z') == 'z'
    ensures 'A' <= c < 'Z' ==> Lower((c as int + 1) as char) as int == Lower(c) as int + 1
    ensures !('A' <= c <= 'Z') ==> Lower(c) == c
  {
  }

  function Lower(c: char): char {
    if 'A' <= c <= 'Z' then c + ' ' else c
  }

  /** filepath.Ext in lower case: from the last dot of the last path element. */
  function Extension(path: string): string {
    if path == "" || path[|path| - 1] == '/' then ""
    else if path[|path| - 1] == '.' then "."
    else
      var front := Extension(path[..|path| - 1]);
      if front == "" then "" else front + [Lower(path[|path| - 1])]
  }

  function Outcome(d: Decoded): File {
    if d.ok then Overlay(d.slots) else Unreadable(d.slots)
  }

  /** What loadFile does with the configured path. */
  function FileAt(path: string, disk: Disk): File {
    if path == "" then NoFile
    else if Traverses(path) then Unreadable(map[])
    else match disk
      case Absent => NoFile
      case ReadError => Unreadable(map[])
      case Content(yaml, json) =>
        if Extension(path) in {".yaml", ".yml"} then Outcome(yaml)
        else if Extension(path) == ".json" then Outcome(json)
        else Unreadable(map[])
  }

  /** Which files stop a load: any path that traverses upwards or cannot be read; and what is there under
      an extension that is not .yaml, .yml or .json, or that its decoder refuses. */
  lemma RefusedFilesExactly(path: string, disk: Disk)
    ensures FileAt(path, disk).Unreadable? <==>
            path != "" &&
            (|| (exists a, b :: path == a + ".." + b)
             || disk.ReadError?
             || (disk.Content? && !(Extension(path) in {".yaml", ".yml"} && disk.yaml.ok)
                   && !(Extension(path) == ".json" && disk.json.ok)))
    ensures path == "" || (disk.Absent? && !Traverses(path)) ==> FileAt(path, disk) == NoFile
  {
    TraversesExactly(path);
  }

  /** An unsupported extension is refused exactly when there is something at the path, or the path is
      refused itself: with no file there, the load goes on as if none were configured. */
  lemma UnsupportedExtensionExactly(path: string, disk: Disk)
    requires path != "" && Extension(path) !in {".yaml", ".yml", ".json"}
    ensures FileAt(path, disk).Unreadable? <==> Traverses(path) || !disk.Absent?
    ensures !FileAt(path, disk).Unreadable? ==> FileAt(path, disk) == NoFile
  {
  }

  /** Extension is the part from the last dot on, in lower case, provided no slash follows that dot. */
  lemma {:induction false} ExtensionIs(stem: string, letters: string)
    requires '.' !in letters && '/' !in letters
    ensures Extension(stem + "." + letters) == "." + seq(|letters|, i requires 0 <= i < |letters| => Lower(letters[i]))
  {
    var path := stem + "." + letters;
    if letters != "" {
      var front := letters[..|letters| - 1];
      ExtensionIs(stem, front);
      assert path[..|path| - 1] == stem + "." + front;
      assert path[|path| - 1] == letters[|letters| - 1];
    }
  }

  /** A last path element without a dot has no extension, whatever dots its directories hold. */
  lemma {:induction false} NoExtension(directory: string, name: string)
    requires '.' !in name && '/' !in name && (directory == "" || directory[|directory| - 1] == '/')
    ensures Extension(directory + name) == ""
  {
    var path := directory + name;
    if name != "" {
      NoExtension(directory, name[..|name| - 1]);
      assert path[..|path| - 1] == directory + name[..|name| - 1];
      assert path[|path| - 1] == name[|name| - 1];
    } else {
      assert path == directory;
    }
  }

  /** The unmarshaler stores decoded values, also those decoded before an error. */
  method LoadFile(file: File, values: array<Value>) returns (err: Option<LoadError>)
    modifies values
    ensures values[..] == Overlaid(old(values[..]), SlotsOf(file))
    ensures err == if file.Unreadable? then Some(BadFile) else None
  {
    forall i | 0 <= i < values.Length && i in SlotsOf(file) {
      values[i] := SlotsOf(file)[i];
    }
    return if file.Unreadable? then Some(BadFile) else None;
  }

  /** The target is null for anything but a non-nil pointer to a struct. */
  method Load(p: Parsers, fields: seq<Field>, values: array?<Value>, prefix: string, vars: map<string, string>,
              path: string, disk: Disk, check: seq<Value> -> bool)
    returns (err: Option<LoadError>)
    requires values != null ==> values.Length == Size(fields)
    modifies values
    ensures if values == null then err == Some(BadTarget)
            else Loaded(p, Leaves(fields, true, [], []), old(values[..]), values[..], prefix, vars,
                        FileAt(path, disk), check, err)
  {
    if values == null {
      return Some(BadTarget);
    }
    err := LoadLayers(p, fields, values, prefix, vars, FileAt(path, disk), check);
  }

  method LoadLayers(p: Parsers, fields: seq<Field>, values: array<Value>, prefix: string, vars: map<string, string>,
                    file: File, check: seq<Value> -> bool)
    returns (err: Option<LoadError>)
    requires values.Length == Size(fields)
    modifies values
    ensures Loaded(p, Leaves(fields, true, [], []), old(values[..]), values[..], prefix, vars, file, check, err)
  {
    ghost var leaves := Leaves(fields, true, [], []);
    LeafCount(fields, true, [], []);
    ghost var failed;
    err, failed := ApplyDefaults(p, fields, values, 0, [], []);
    ghost var afterDefaults := values[..];
    if err.Some? {
      return;
    }
    err := LoadFile(file, values);
    ghost var afterFile := values[..];
    if err.Some? {
      return;
    }
    PrefixAlone(prefix);
    err, failed := ApplyEnv(p, fields, values, 0, vars, prefix, prefix, [], []);
    if err.Some? {
      return;
    }
    err := Validate(fields, values[..], check);
    assert FromEnvOn(p, leaves, afterFile, values[..], prefix, vars, check, err);
  }

  /** Required fields first, then the configuration's own check. */
  method Validate(fields: seq<Field>, values: seq<Value>, check: seq<Value> -> bool) returns (err: Option<LoadError>)
    requires |values| == Size(fields)
    ensures |Leaves(fields, true, [], [])| == |values|
    ensures Validated(Leaves(fields, true, [], []), values, check, err)
  {
    MissingIsFirst(fields, values, 0, [], []);
    var missing := MissingIn(fields, values, 0, "");
    if missing.Some? {
      return Some(MissingRequired(missing.value));
    }
    return if check(values) then None else Some(Invalid);
  }

  ghost predicate Validated(leaves: seq<LeafSpec>, values: seq<Value>, check: seq<Value> -> bool,
                            err: Option<LoadError>)
    requires |leaves| == |values|
  {
    if exists i :: 0 <= i < |leaves| && Missing(leaves[i], values[i])
    then err.Some? && err.value.MissingRequired? && FirstMissing(leaves, values, 0, Some(err.value.path))
    else err == if check(values) then None else Some(Invalid)
  }

  lemma PrefixAlone(prefix: string)
    ensures prefix == JoinNonEmpty([prefix] + [], "_")
  {
    assert [prefix] + [] == [prefix] && [prefix][1..] == [];
    assert NonEmpty([prefix]) == if prefix == "" then [] else [prefix];
  }

  /** The stages in order: each error is that of the first stage that fails, at its first leaf, and the
      values are those the stages run so far have left. */
  ghost predicate Loaded(p: Parsers, leaves: seq<LeafSpec>, before: seq<Value>, after: seq<Value>, prefix: string,
                         vars: map<string, string>, file: File, check: seq<Value> -> bool, err: Option<LoadError>)
  {
    exists afterDefaults, failed :: Ran(p, Defaults, leaves, before, afterDefaults, 0, failed) &&
      match failed
      case Some(k) => err == Some(BadDefault(LastName(leaves[k]))) && after == afterDefaults
      case None =>
        var afterFile := Overlaid(afterDefaults, SlotsOf(file));
        if file.Unreadable? then err == Some(BadFile) && after == afterFile
        else FromEnvOn(p, leaves, afterFile, after, prefix, vars, check, err)
  }

  ghost predicate FromEnvOn(p: Parsers, leaves: seq<LeafSpec>, afterFile: seq<Value>, after: seq<Value>, prefix: string,
                            vars: map<string, string>, check: seq<Value> -> bool, err: Option<LoadError>)
  {
    exists failed :: Ran(p, FromEnv(vars, prefix), leaves, afterFile, after, 0, failed) &&
      match failed
      case Some(k) => err == Some(EnvError(prefix, leaves[k]))
      case None => |after| == |leaves| && Validated(leaves, after, check, err)
  }

  /** The priority rule for one leaf: the environment, else the file, else a non-zero or untagged initial
      value, else the default. None when a text that must be parsed is refused. */
  function Resolved(p: Parsers, leaf: LeafSpec, slot: nat, initial: Value, prefix: string,
                    vars: map<string, string>, file: File): Option<Value>
  {
    if leaf.settable && leaf.env != "" && EnvKey(prefix, leaf) in vars then
      ParseAs(p, leaf.kind, vars[EnvKey(prefix, leaf)])
    else if slot in SlotsOf(file) then Some(SlotsOf(file)[slot])
    else if leaf.settable && leaf.dflt != "" && IsZero(initial) then ParseAs(p, leaf.kind, leaf.dflt)
    else Some(initial)
  }

  /** The default of a leaf parses whenever it is consulted, even if a later layer overrides it. */
  predicate DefaultUsable(p: Parsers, leaf: LeafSpec, initial: Value) {
    leaf.settable && leaf.dflt != "" && IsZero(initial) ==> ParseAs(p, leaf.kind, leaf.dflt).Some?
  }

  /** A successful load leaves every leaf with its resolved value, satisfies every required tag and the
      custom check; and no slot is anything else. */
  lemma LoadResolvesEveryLeaf(p: Parsers, leaves: seq<LeafSpec>, before: seq<Value>, after: seq<Value>, prefix: string,
                              vars: map<string, string>, file: File, check: seq<Value> -> bool)
    requires |before| == |leaves|
    requires Loaded(p, leaves, before, after, prefix, vars, file, check, None)
    ensures |after| == |leaves| && check(after)
    ensures forall i :: 0 <= i < |leaves| ==> Resolved(p, leaves[i], i, before[i], prefix, vars, file) == Some(after[i])
    ensures forall i :: 0 <= i < |leaves| ==> !Missing(leaves[i], after[i])
    ensures !file.Unreadable?
    ensures file.Overlay? ==>
              forall i :: 0 <= i < |leaves| && i in file.slots ==>
                || (leaves[i].settable && leaves[i].env != "" && EnvKey(prefix, leaves[i]) in vars)
                || after[i] == file.slots[i]
  {
    var afterDefaults, failed :| Ran(p, Defaults, leaves, before, afterDefaults, 0, failed) && failed.None?
      && !file.Unreadable?
      && FromEnvOn(p, leaves, Overlaid(afterDefaults, SlotsOf(file)), after, prefix, vars, check, None);
    var afterFile := Overlaid(afterDefaults, SlotsOf(file));
    forall i | 0 <= i < |leaves|
      ensures Resolved(p, leaves[i], i, before[i], prefix, vars, file) == Some(after[i])
    {
      assert Wanted(p, Defaults, leaves[i], before[0 + i]) == Some(afterDefaults[0 + i]);
      assert Wanted(p, FromEnv(vars, prefix), leaves[i], afterFile[0 + i]) == Some(after[0 + i]);
    }
  }

  /** The priority rule spelt out for one leaf of a successful load, down to what is on disk: the variable
      under its key if there is one; else what the file, read as YAML or JSON by its extension, holds for
      it; else its default if it was zero and has one; else what it was. A file that is there was read to
      its end. */
  lemma LayersInOrder(p: Parsers, leaves: seq<LeafSpec>, before: seq<Value>, after: seq<Value>, prefix: string,
                      vars: map<string, string>, path: string, disk: Disk, check: seq<Value> -> bool, i: nat)
    requires |before| == |leaves| && i < |leaves|
    requires Loaded(p, leaves, before, after, prefix, vars, FileAt(path, disk), check, None)
    ensures |after| == |leaves|
    ensures var leaf, key := leaves[i], EnvKey(prefix, leaves[i]);
            var asYaml := path != "" && disk.Content? && Extension(path) in {".yaml", ".yml"};
            var asJson := path != "" && disk.Content? && Extension(path) == ".json";
            && (path != "" ==> !Traverses(path) && !disk.ReadError?)
            && (path != "" && disk.Content? ==> (asYaml && disk.yaml.ok) || (asJson && disk.json.ok))
            && if leaf.settable && leaf.env != "" && key in vars then Some(after[i]) == ParseAs(p, leaf.kind, vars[key])
               else if asYaml && i in disk.yaml.slots then after[i] == disk.yaml.slots[i]
               else if asJson && i in disk.json.slots then after[i] == disk.json.slots[i]
               else if leaf.settable && leaf.dflt != "" && IsZero(before[i])
                    then Some(after[i]) == ParseAs(p, leaf.kind, leaf.dflt)
               else after[i] == before[i]
  {
    LoadResolvesEveryLeaf(p, leaves, before, after, prefix, vars, FileAt(path, disk), check);
    assert Resolved(p, leaves[i], i, before[i], prefix, vars, FileAt(path, disk)) == Some(after[i]);
  }

  /** A file that fails half-way fails the load, and what it wrote until then stays; the rest holds its
      default or what it was. */
  lemma HalfReadFile(p: Parsers, leaves: seq<LeafSpec>, before: seq<Value>, after: seq<Value>, prefix: string,
                     vars: map<string, string>, written: map<nat, Value>, check: seq<Value> -> bool,
                     err: Option<LoadError>, i: nat)
    requires |before| == |leaves| && i < |leaves|
    requires Loaded(p, leaves, before, after, prefix, vars, Unreadable(written), check, err)
    requires forall k :: 0 <= k < |leaves| ==> DefaultUsable(p, leaves[k], before[k])
    ensures err == Some(BadFile) && |after| == |leaves|
    ensures i in written ==> after[i] == written[i]
    ensures i !in written && (!leaves[i].settable || leaves[i].dflt == "" || !IsZero(before[i])) ==>
              after[i] == before[i]
    ensures i !in written && leaves[i].settable && leaves[i].dflt != "" && IsZero(before[i]) ==>
              Some(after[i]) == ParseAs(p, leaves[i].kind, leaves[i].dflt)
  {
    var afterDefaults: seq<Value>, failed: Option<nat> :| Ran(p, Defaults, leaves, before, afterDefaults, 0, failed) &&
      (failed.None? ==> err == Some(BadFile) && after == Overlaid(afterDefaults, written));
    assert failed.None? by {
      assert forall k :: 0 <= k < |leaves| && DefaultUsable(p, leaves[k], before[k]) ==>
               Wanted(p, Defaults, leaves[k], before[0 + k]).Some?;
    }
    assert Wanted(p, Defaults, leaves[i], before[0 + i]) == Some(afterDefaults[0 + i]);
  }

  /** When loading succeeds, exactly: every consulted default and every present variable parses, the file
      is readable, no required leaf resolves to zero, and the custom check accepts the resolved values. */
  lemma LoadSucceedsExactly(p: Parsers, leaves: seq<LeafSpec>, before: seq<Value>, after: seq<Value>, prefix: string,
                            vars: map<string, string>, file: File, check: seq<Value> -> bool, err: Option<LoadError>,
                            resolved: seq<Value>)
    requires |before| == |leaves| == |resolved|
    requires Loaded(p, leaves, before, after, prefix, vars, file, check, err)
    requires forall i :: 0 <= i < |leaves| && Resolved(p, leaves[i], i, before[i], prefix, vars, file).Some? ==>
               resolved[i] == Resolved(p, leaves[i], i, before[i], prefix, vars, file).value
    ensures err.None? <==>
              && !file.Unreadable?
              && (forall i :: 0 <= i < |leaves| ==> DefaultUsable(p, leaves[i], before[i]))
              && (forall i :: 0 <= i < |leaves| ==> Resolved(p, leaves[i], i, before[i], prefix, vars, file).Some?)
              && (forall i :: 0 <= i < |leaves| ==> !Missing(leaves[i], resolved[i]))
              && check(resolved)
  {
    if err.None? {
      LoadResolvesEveryLeaf(p, leaves, before, after, prefix, vars, file, check);
      assert resolved == after;
      DefaultsWereUsable(p, leaves, before, after, prefix, vars, file, check);
    } else if && !file.Unreadable?
              && (forall i :: 0 <= i < |leaves| ==> DefaultUsable(p, leaves[i], before[i]))
              && (forall i :: 0 <= i < |leaves| ==> Resolved(p, leaves[i], i, before[i], prefix, vars, file).Some?) {
      UsableLoadReachesValidation(p, leaves, before, after, prefix, vars, file, check, err);
      assert resolved == after;
    }
  }

  /** A default that is consulted and does not parse fails the load, at the first such leaf, whatever the
      file and the environment hold for it. */
  lemma BadDefaultFailsTheLoad(p: Parsers, leaves: seq<LeafSpec>, before: seq<Value>, after: seq<Value>,
                               prefix: string, vars: map<string, string>, file: File, check: seq<Value> -> bool,
                               err: Option<LoadError>, k: nat)
    requires |before| == |leaves| && k < |leaves|
    requires Loaded(p, leaves, before, after, prefix, vars, file, check, err)
    requires !DefaultUsable(p, leaves[k], before[k])
    requires forall i :: 0 <= i < k ==> DefaultUsable(p, leaves[i], before[i])
    ensures err == Some(BadDefault(LastName(leaves[k])))
  {
    var afterDefaults: seq<Value>, failed: Option<nat> :| Ran(p, Defaults, leaves, before, afterDefaults, 0, failed) &&
      (failed.Some? ==> err == Some(BadDefault(LastName(leaves[failed.value]))));
    assert forall i :: 0 <= i < |leaves| ==>
      (Wanted(p, Defaults, leaves[i], before[0 + i]).Some? <==> DefaultUsable(p, leaves[i], before[i]));
    assert failed.Some? && failed.value == k;
  }

  /** One such input: a port with an unparsable default and a good environment value, which the priority
      rule would take; the load fails all the same. */
  lemma BadDefaultWitness(check: seq<Value> -> bool)
    returns (p: Parsers, fields: seq<Field>, vars: map<string, string>, leaf: LeafSpec)
    ensures Leaves(fields, true, [], []) == [leaf]
    ensures Resolved(p, leaf, 0, IntValue(0), "", vars, NoFile) == Some(IntValue(80))
    ensures Loaded(p, [leaf], [IntValue(0)], [IntValue(0)], "", vars, NoFile, check, Some(BadDefault("Port")))
    ensures forall after, err :: Loaded(p, [leaf], [IntValue(0)], after, "", vars, NoFile, check, err) ==>
              err == Some(BadDefault("Port"))
  {
    p := Parsers(_ => None, _ => None, (text, _) => if text == "80" then Some(80) else None);
    fields := [Field("Port", true, "PORT", "eighty", "", Leaf(IntKind(64)))];
    vars := map["PORT" := "80"];
    leaf := LeafSpec(true, [], "PORT", ["Port"], "eighty", false, IntKind(64));
    assert fields[1..] == [] && [] + ["Port"] == ["Port"];
    assert LeavesOf(fields[0], true, [], []) == [leaf];
    assert Leaves(fields, true, [], []) == [leaf];
    EnvKeyAlone(leaf);
    assert Ran(p, Defaults, [leaf], [IntValue(0)], [IntValue(0)], 0, Some(0));
    forall after, err | Loaded(p, [leaf], [IntValue(0)], after, "", vars, NoFile, check, err)
      ensures err == Some(BadDefault("Port"))
    {
      BadDefaultFailsTheLoad(p, [leaf], [IntValue(0)], after, "", vars, NoFile, check, err, 0);
    }
  }

  lemma EnvKeyAlone(leaf: LeafSpec)
    requires leaf.tags == []
    ensures EnvKey("", leaf) == leaf.env
  {
    ExtendIsJoin([""], leaf.env, "_");
    PrefixAlone("");
    assert [""] + leaf.tags + [leaf.env] == [""] + [leaf.env] && [""] + [] == [""];
  }

  lemma DefaultsWereUsable(p: Parsers, leaves: seq<LeafSpec>, before: seq<Value>, after: seq<Value>, prefix: string,
                           vars: map<string, string>, file: File, check: seq<Value> -> bool)
    requires |before| == |leaves|
    requires Loaded(p, leaves, before, after, prefix, vars, file, check, None)
    ensures !file.Unreadable? && forall i :: 0 <= i < |leaves| ==> DefaultUsable(p, leaves[i], before[i])
  {
    var afterDefaults, failed :| Ran(p, Defaults, leaves, before, afterDefaults, 0, failed) &&
      failed.None? && !file.Unreadable?;
    forall i | 0 <= i < |leaves| ensures DefaultUsable(p, leaves[i], before[i]) {
      assert Wanted(p, Defaults, leaves[i], before[0 + i]).Some?;
    }
  }

  // When every text parses, all stages run to their end and only validation can fail.
  lemma UsableLoadReachesValidation(p: Parsers, leaves: seq<LeafSpec>, before: seq<Value>, after: seq<Value>,
                                    prefix: string, vars: map<string, string>, file: File,
                                    check: seq<Value> -> bool, err: Option<LoadError>)
    requires |before| == |leaves| && !file.Unreadable?
    requires Loaded(p, leaves, before, after, prefix, vars, file, check, err)
    requires forall i :: 0 <= i < |leaves| ==> DefaultUsable(p, leaves[i], before[i])
    requires forall i :: 0 <= i < |leaves| ==> Resolved(p, leaves[i], i, before[i], prefix, vars, file).Some?
    ensures |after| == |leaves|
    ensures forall i :: 0 <= i < |leaves| ==> Resolved(p, leaves[i], i, before[i], prefix, vars, file) == Some(after[i])
    ensures if exists i :: 0 <= i < |leaves| && Missing(leaves[i], after[i]) then err.Some?
            else err == if check(after) then None else Some(Invalid)
  {
    var afterDefaults, failed :| Ran(p, Defaults, leaves, before, afterDefaults, 0, failed) &&
      (failed.None? ==> FromEnvOn(p, leaves, Overlaid(afterDefaults, SlotsOf(file)), after, prefix, vars, check, err));
    assert failed.None? by {
      assert forall i :: 0 <= i < |leaves| ==> DefaultUsable(p, leaves[i], before[i]) ==>
               Wanted(p, Defaults, leaves[i], before[i]).Some?;
    }
    var afterFile := Overlaid(afterDefaults, SlotsOf(file));
    forall i | 0 <= i < |leaves|
      ensures Resolved(p, leaves[i], i, before[i], prefix, vars, file) ==
              Wanted(p, FromEnv(vars, prefix), leaves[i], afterFile[i])
    {
      assert Wanted(p, Defaults, leaves[i], before[0 + i]) == Some(afterDefaults[0 + i]);
    }
    EnvReachesValidation(p, leaves, afterFile, after, prefix, vars, check, err);
    forall i | 0 <= i < |leaves| ensures Resolved(p, leaves[i], i, before[i], prefix, vars, file) == Some(after[i]) {
      assert Wanted(p, FromEnv(vars, prefix), leaves[i], afterFile[i]) == Some(after[i]);
    }
  }

  lemma EnvReachesValidation(p: Parsers, leaves: seq<LeafSpec>, afterFile: seq<Value>, after: seq<Value>,
                             prefix: string, vars: map<string, string>, check: seq<Value> -> bool,
                             err: Option<LoadError>)
    requires |afterFile| == |leaves| && FromEnvOn(p, leaves, afterFile, after, prefix, vars, check, err)
    requires forall i :: 0 <= i < |leaves| ==> Wanted(p, FromEnv(vars, prefix), leaves[i], afterFile[i]).Some?
    ensures |after| == |leaves|
    ensures forall i :: 0 <= i < |leaves| ==>
              Wanted(p, FromEnv(vars, prefix), leaves[i], afterFile[i]) == Some(after[i])
    ensures if exists i :: 0 <= i < |leaves| && Missing(leaves[i], after[i]) then err.Some?
            else err == if check(after) then None else Some(Invalid)
  {
    var failed :| Ran(p, FromEnv(vars, prefix), leaves, afterFile, after, 0, failed) &&
      (failed.None? ==>
        if exists i :: 0 <= i < |leaves| && Missing(leaves[i], after[i]) then err.Some?
        else err == if check(after) then None else Some(Invalid));
    assert failed.None?;
    forall i | 0 <= i < |leaves|
      ensures Wanted(p, FromEnv(vars, prefix), leaves[i], afterFile[i]) == Some(after[i])
    {
      assert Wanted(p, FromEnv(vars, prefix), leaves[i], afterFile[0 + i]) == Some(after[0 + i]);
    }
  }
}
