/** The directive row: `@name(args)` annotations, and the column index built from them
    (`parse_annotation` and `create_indices`). */
module Annotations {
  import opened Wrappers
  import opened Text
  import opened OrderedMaps

  predicate IsIdentStart(c: char) {
    IsAsciiLetter(c) || c == '_'
  }

  predicate IsIdentChar(c: char) {
    IsIdentStart(c) || IsAsciiDigit(c)
  }

  /** `[a-zA-Z_][a-zA-Z0-9_]*` */
  predicate IsIdentifier(name: string) {
    |name| >= 1 && IsIdentStart(name[0]) && forall i :: 0 <= i < |name| ==> IsIdentChar(name[i])
  }

  /** Length of the longest prefix of identifier characters. */
  function IdentRun(s: string): (n: nat)
    ensures n <= |s|
    ensures forall i :: 0 <= i < n ==> IsIdentChar(s[i])
    ensures n < |s| ==> !IsIdentChar(s[n])
  {
    if s != [] && IsIdentChar(s[0]) then 1 + IdentRun(s[1..]) else 0
  }

  /** The text of a directive: `@name`, or `@name(args)` when it has an argument list. */
  function RenderAnnotation(name: string, args: Option<string>): string {
    "@" + name + (if args.Some? then "(" + args.value + ")" else "")
  }

  /** What the argument list may hold: the regex's `.` stops at a line feed. */
  predicate ArgsOk(args: Option<string>) {
    args.Some? ==> '\n' !in args.value
  }

  /** The two captures of `^@([a-zA-Z_][a-zA-Z0-9_]*)(?:\((.*?)\))?$`, or `None` when the cell
      does not match. */
  function SplitAnnotation(cell: string): Option<(string, Option<string>)> {
    if |cell| < 2 || cell[0] != '@' || !IsIdentStart(cell[1]) then None
    else
      var n := 2 + IdentRun(cell[2..]);
      var rest := cell[n..];
      if rest == [] then Some((cell[1..n], None))
      else if |rest| >= 2 && rest[0] == '(' && rest[|rest| - 1] == ')' && '\n' !in rest[1..|rest| - 1] then
        Some((cell[1..n], Some(rest[1..|rest| - 1])))
      else None
  }

  /** The arguments: split on `,`, each trimmed, empty ones dropped. */
  function TrimmedArgs(parts: seq<string>): (args: seq<string>)
    ensures forall k :: 0 <= k < |args| ==> args[k] != ""
  {
    if parts == [] then []
    else
      var t := Trim(parts[0]);
      (if t == "" then [] else [t]) + TrimmedArgs(parts[1..])
  }

  function Arguments(text: string): seq<string> {
    TrimmedArgs(Split(text, ','))
  }

  /** `parse_annotation`: the directive name followed by its non-empty arguments. */
  function ParseAnnotation(cell: string): (r: Option<seq<string>>)
    ensures r.Some? <==> SplitAnnotation(cell).Some?
    ensures r.Some? ==> |r.value| >= 1 && r.value[0] == SplitAnnotation(cell).value.0 && IsIdentifier(r.value[0])
  {
    match SplitAnnotation(cell)
    case None => None
    case Some((name, args)) =>
      SplitAnnotationSound(cell);
      Some([name] + (if args.Some? then Arguments(args.value) else []))
  }

  lemma {:induction false} IdentRunOfIdentPrefix(a: string, b: string)
    requires forall i :: 0 <= i < |a| ==> IsIdentChar(a[i])
    requires b == [] || !IsIdentChar(b[0])
    ensures IdentRun(a + b) == |a|
    decreases |a|
  {
    if a != [] {
      assert (a + b)[1..] == a[1..] + b;
      IdentRunOfIdentPrefix(a[1..], b);
    } else {
      assert a + b == b;
    }
  }

  /** Every directive `RenderAnnotation` writes is matched, with the name and argument text
      it was written from. */
  lemma SplitAnnotationComplete(name: string, args: Option<string>)
    requires IsIdentifier(name) && ArgsOk(args)
    ensures SplitAnnotation(RenderAnnotation(name, args)) == Some((name, args))
  {
    var cell := RenderAnnotation(name, args);
    var suffix := if args.Some? then "(" + args.value + ")" else "";
    assert cell == "@" + name + suffix;
    assert cell[2..] == name[1..] + suffix;
    IdentRunOfIdentPrefix(name[1..], suffix);
    var n := 2 + IdentRun(cell[2..]);
    assert cell[1..n] == name;
    assert cell[n..] == suffix;
    if args.Some? {
      assert suffix[1..|suffix| - 1] == args.value;
    }
  }

  /** Writing a directive with a name and a list of trimmed, non-empty arguments that hold no
      `,` and no line feed, and parsing it, gives back the name followed by the arguments. */
  lemma ParseRendered(name: string, xs: seq<string>)
    requires IsIdentifier(name) && |xs| >= 1
    requires forall k :: 0 <= k < |xs| ==> xs[k] != "" && Trim(xs[k]) == xs[k]
    requires forall k :: 0 <= k < |xs| ==> ',' !in xs[k] && '\n' !in xs[k]
    ensures ParseAnnotation(RenderAnnotation(name, Some(Join(xs, ',')))) == Some([name] + xs)
  {
    JoinKeepsOut(xs, ',', '\n');
    SplitAnnotationComplete(name, Some(Join(xs, ',')));
    SplitJoin(xs, ',');
    TrimmedArgsOfTrimmed(xs);
  }

  /** A character that is in no part and is not the separator is not in the joined text. */
  lemma {:induction false} JoinKeepsOut(parts: seq<string>, sep: char, c: char)
    requires |parts| >= 1 && c != sep
    requires forall k :: 0 <= k < |parts| ==> c !in parts[k]
    ensures c !in Join(parts, sep)
    decreases |parts|
  {
    if |parts| > 1 {
      JoinKeepsOut(parts[1..], sep, c);
      assert forall k :: 0 <= k < |parts[1..]| ==> parts[1..][k] == parts[k + 1];
    }
  }

  /** Arguments that are already trimmed and non-empty are all kept, in order. */
  lemma {:induction false} TrimmedArgsOfTrimmed(xs: seq<string>)
    requires forall k :: 0 <= k < |xs| ==> xs[k] != "" && Trim(xs[k]) == xs[k]
    ensures TrimmedArgs(xs) == xs
  {
    if xs != [] {
      assert forall k :: 0 <= k < |xs[1..]| ==> xs[1..][k] == xs[k + 1];
      TrimmedArgsOfTrimmed(xs[1..]);
      assert Trim(xs[0]) == xs[0] != "";
    }
  }

  /** The arguments of two runs of parts are those of each run, in order. */
  lemma {:induction false} TrimmedArgsAppend(a: seq<string>, b: seq<string>)
    ensures TrimmedArgs(a + b) == TrimmedArgs(a) + TrimmedArgs(b)
    decreases |a|
  {
    if a == [] {
      assert a + b == b;
    } else {
      assert (a + b)[0] == a[0] && (a + b)[1..] == a[1..] + b;
      TrimmedArgsAppend(a[1..], b);
      var t := Trim(a[0]);
      var h := if t == "" then [] else [t];
      assert TrimmedArgs(a) == h + TrimmedArgs(a[1..]);
      assert TrimmedArgs(a + b) == h + TrimmedArgs(a[1..] + b);
      AppendAssoc(h, TrimmedArgs(a[1..]), TrimmedArgs(b));
    }
  }

  lemma AppendAssoc(x: seq<string>, y: seq<string>, z: seq<string>)
    ensures x + (y + z) == (x + y) + z
  {
  }

  /** Each part on its own is trimmed, and kept exactly when it is not empty after trimming. */
  lemma TrimmedArgsOne(x: string)
    ensures TrimmedArgs([x]) == (if Trim(x) == "" then [] else [Trim(x)])
  {
    assert [x][1..] == [];
  }

  /** Whatever the regex matches is a directive `RenderAnnotation` writes. */
  lemma SplitAnnotationSound(cell: string)
    requires SplitAnnotation(cell).Some?
    ensures var (name, args) := SplitAnnotation(cell).value;
            IsIdentifier(name) && ArgsOk(args) && cell == RenderAnnotation(name, args)
  {
    var (name, args) := SplitAnnotation(cell).value;
    var n := 2 + IdentRun(cell[2..]);
    assert name == cell[1..n];
    assert IsIdentifier(name) by {
      forall i | 0 <= i < |name| ensures IsIdentChar(name[i]) {
        if i > 0 { assert name[i] == cell[2..][i - 1]; }
      }
    }
    var rest := cell[n..];
    assert cell == [cell[0]] + cell[1..n] + rest;
    if rest != [] {
      assert rest == "(" + rest[1..|rest| - 1] + ")";
    }
  }

  /** The role a column's directive gives it, if it is one of the three the engine looks up. */
  function ColumnRole(cell: string): Option<string> {
    match ParseAnnotation(cell)
    case Some(a) => if a[0] in ["raw", "sample", "header"] then Some(a[0]) else None
    case None => None
  }

  /** The output key of column `i` whose directive-row cell is `cell`. */
  function ColumnKey(cell: string, i: nat): string {
    match ParseAnnotation(cell)
    case Some(a) =>
      if a[0] == "raw" then "__raw_" + NatToString(i)
      else if a[0] == "sample" then (if |a| >= 2 then a[1] else "sample")
      else if a[0] == "header" then "__header"
      else cell
    case None => cell
  }

  /** What a written directive turns into: its key and its role. */
  lemma ColumnKeyOfDirective(name: string, args: Option<string>, i: nat)
    requires IsIdentifier(name) && ArgsOk(args)
    ensures var cell := RenderAnnotation(name, args);
            var argv := if args.Some? then Arguments(args.value) else [];
            && (name == "raw" ==> ColumnKey(cell, i) == "__raw_" + NatToString(i) && ColumnRole(cell) == Some("raw"))
            && (name == "sample" ==> ColumnKey(cell, i) == (if argv != [] then argv[0] else "sample")
                                     && ColumnRole(cell) == Some("sample"))
            && (name == "header" ==> ColumnKey(cell, i) == "__header" && ColumnRole(cell) == Some("header"))
            && (name !in ["raw", "sample", "header"] ==> ColumnKey(cell, i) == cell && ColumnRole(cell) == None)
  {
    SplitAnnotationComplete(name, args);
  }

  /** Text that is not a directive is its own key and has no role: both text without a leading
      `@` and text that starts with `@` but is not `@name` or `@name(args)`. */
  lemma ColumnKeyOfPlainCell(cell: string, i: nat)
    requires SplitAnnotation(cell).None?
    ensures ColumnKey(cell, i) == cell && ColumnRole(cell) == None
  {
  }

  /** Only text starting with `@` can be a directive. */
  lemma PlainTextNoDirective(cell: string)
    ensures (cell == [] || cell[0] != '@') ==> SplitAnnotation(cell).None?
  {
  }

  /** Raw columns never share a key: each carries its own column number. */
  lemma RawKeysDistinct(a: string, i: nat, b: string, j: nat)
    requires ColumnRole(a) == Some("raw") && ColumnRole(b) == Some("raw") && i != j
    ensures ColumnKey(a, i) != ColumnKey(b, j)
  {
    var p := "__raw_";
    if ColumnKey(a, i) == ColumnKey(b, j) {
      assert p + NatToString(i) == p + NatToString(j);
      assert NatToString(i) == (p + NatToString(i))[|p|..];
      assert NatToString(j) == (p + NatToString(j))[|p|..];
      NatToStringInjective(i, j);
    }
  }

  /** The (key, column) pairs `create_indices` collects, in column order. */
  function ColumnPairs(header: seq<string>): (pairs: seq<(string, nat)>)
    ensures |pairs| == |header|
  {
    seq(|header|, i requires 0 <= i < |header| => (ColumnKey(header[i], i), i))
  }

  /** The role of every column. */
  function Roles(header: seq<string>): (roles: seq<Option<string>>)
    ensures |roles| == |header| && forall i :: 0 <= i < |header| ==> roles[i] == ColumnRole(header[i])
  {
    seq(|header|, i requires 0 <= i < |header| => ColumnRole(header[i]))
  }

  /** Every tag mapped to the last position that carries it. */
  function LastIndex(tags: seq<Option<string>>): map<string, nat> {
    if tags == [] then map[]
    else
      var n := |tags| - 1;
      var m := LastIndex(tags[..n]);
      if tags[n].Some? then m[tags[n].value := n] else m
  }

  /** A tag is indexed exactly when some position carries it. */
  lemma {:induction false} LastIndexDomain(tags: seq<Option<string>>, t: string)
    ensures t in LastIndex(tags) <==> exists i :: 0 <= i < |tags| && tags[i] == Some(t)
  {
    if tags != [] {
      var n := |tags| - 1;
      var init := tags[..n];
      LastIndexDomain(init, t);
      if exists i :: 0 <= i < |tags| && tags[i] == Some(t) {
        var i :| 0 <= i < |tags| && tags[i] == Some(t);
        if i < n { assert init[i] == tags[i]; }
      }
      if t in LastIndex(init) {
        var i :| 0 <= i < n && init[i] == Some(t);
        assert tags[i] == init[i];
      }
    }
  }

  /** An indexed tag points at the last position that carries it. */
  lemma {:induction false} LastIndexLastWins(tags: seq<Option<string>>, t: string)
    requires t in LastIndex(tags)
    ensures LastIndex(tags)[t] < |tags| && tags[LastIndex(tags)[t]] == Some(t)
    ensures forall j :: LastIndex(tags)[t] < j < |tags| ==> tags[j] != Some(t)
  {
    var n := |tags| - 1;
    var init := tags[..n];
    if tags[n] != Some(t) {
      assert t in LastIndex(init);
      LastIndexLastWins(init, t);
      var i := LastIndex(init)[t];
      assert tags[i] == init[i];
      forall j | i < j < |tags| ensures tags[j] != Some(t) {
        if j < n { assert tags[j] == init[j]; }
      }
    }
  }

  /** The role index: each role points at a column carrying it, the last one when several do. */
  function RoleIndices(header: seq<string>): map<string, nat> {
    LastIndex(Roles(header))
  }

  /** A role is indexed exactly when some column carries it. */
  lemma RoleIndicesDomain(header: seq<string>, role: string)
    ensures role in RoleIndices(header) <==> exists i :: 0 <= i < |header| && ColumnRole(header[i]) == Some(role)
  {
    var tags := Roles(header);
    LastIndexDomain(tags, role);
    if role in RoleIndices(header) {
      var i :| 0 <= i < |tags| && tags[i] == Some(role);
      assert ColumnRole(header[i]) == Some(role);
    }
  }

  /** An indexed role points at the last column that carries it. */
  lemma RoleIndicesLastWins(header: seq<string>, role: string)
    requires role in RoleIndices(header)
    ensures RoleIndices(header)[role] < |header| && ColumnRole(header[RoleIndices(header)[role]]) == Some(role)
    ensures forall j :: RoleIndices(header)[role] < j < |header| ==> ColumnRole(header[j]) != Some(role)
  {
    var tags := Roles(header);
    LastIndexLastWins(tags, role);
    var i := LastIndex(tags)[role];
    forall j | i < j < |header| ensures ColumnRole(header[j]) != Some(role) {
      assert tags[j] != Some(role);
    }
  }

  lemma PrefixSteps(header: seq<string>, i: nat)
    requires i < |header|
    ensures LastIndex(Roles(header)[..i + 1]) ==
              match ColumnRole(header[i]) case Some(role) => LastIndex(Roles(header)[..i])[role := i] case None => LastIndex(Roles(header)[..i])
    ensures FromPairs(ColumnPairs(header)[..i + 1]) == FromPairs(ColumnPairs(header)[..i]).Put(ColumnKey(header[i], i), i)
  {
    assert Roles(header)[..i + 1][..i] == Roles(header)[..i];
    var pairs := ColumnPairs(header)[..i + 1];
    assert pairs[..i] == ColumnPairs(header)[..i];
  }

  /** `create_indices`: the output-key map and the role index, built column by column. */
  method CreateIndices(header: seq<string>) returns (opcodeIndices: OrderedMap<nat>, annoIndices: map<string, nat>)
    ensures opcodeIndices == FromPairs(ColumnPairs(header))
    ensures annoIndices == RoleIndices(header)
  {
    opcodeIndices := Empty();
    annoIndices := map[];
    for i := 0 to |header|
      invariant opcodeIndices == FromPairs(ColumnPairs(header)[..i])
      invariant annoIndices == LastIndex(Roles(header)[..i])
    {
      PrefixSteps(header, i);
      var cell := header[i];
      var key := cell;
      match ParseAnnotation(cell) {
        case Some(anno) =>
          if anno[0] == "raw" {
            annoIndices := annoIndices[anno[0] := i];
            key := "__raw_" + NatToString(i);
          } else if anno[0] == "sample" {
            annoIndices := annoIndices[anno[0] := i];
            key := if |anno| >= 2 then anno[1] else "sample";
          } else if anno[0] == "header" {
            annoIndices := annoIndices[anno[0] := i];
            key := "__header";
          }
        case None =>
      }
      assert key == ColumnKey(cell, i);
      opcodeIndices := opcodeIndices.Put(key, i);
    }
    assert ColumnPairs(header)[..|header|] == ColumnPairs(header);
    assert Roles(header)[..|header|] == Roles(header);
  }

  /** The column index as `create_indices` leaves it: keys in order of first appearance, each
      mapped to the last column that produced it. */
  lemma ColumnIndexMeaning(header: seq<string>)
    ensures var m := FromPairs(ColumnPairs(header));
            && m.keys == Dedup(seq(|header|, i requires 0 <= i < |header| => ColumnKey(header[i], i)))
            && (forall i :: 0 <= i < |header| ==> ColumnKey(header[i], i) in m.values)
            && (forall i :: 0 <= i < |header| && (forall j :: i < j < |header| ==> ColumnKey(header[j], j) != ColumnKey(header[i], i))
                  ==> m.values[ColumnKey(header[i], i)] == i)
  {
    var pairs := ColumnPairs(header);
    FromPairsKeys(pairs);
    FromPairsLastWins(pairs);
    assert Firsts(pairs) == seq(|header|, i requires 0 <= i < |header| => ColumnKey(header[i], i));
    forall i | 0 <= i < |header| ensures ColumnKey(header[i], i) in FromPairs(pairs).values {
      assert Firsts(pairs)[i] == ColumnKey(header[i], i);
    }
    forall i | 0 <= i < |header| && (forall j :: i < j < |header| ==> ColumnKey(header[j], j) != ColumnKey(header[i], i))
      ensures FromPairs(pairs).values[ColumnKey(header[i], i)] == i
    {
      assert pairs[i] == (ColumnKey(header[i], i), i);
      forall j | i < j < |pairs| ensures pairs[j].0 != pairs[i].0 {
        assert pairs[j].0 == ColumnKey(header[j], j);
      }
    }
  }
}

/** The unit test of `create_indices`, replayed on the model. */
module AnnotationExamples {
  import opened Wrappers
  import opened Text
  import opened OrderedMaps
  import opened Annotations

  /** `@9x`, `@a b` and `@raw(x` start with `@` but are no directive: each is its own key. */
  lemma ExampleMalformedDirectives(i: nat)
    ensures ColumnKey("@9x", i) == "@9x" && ColumnRole("@9x") == None
    ensures ColumnKey("@a b", i) == "@a b" && ColumnRole("@a b") == None
    ensures ColumnKey("@raw(x", i) == "@raw(x" && ColumnRole("@raw(x") == None
  {
    ColumnKeyOfPlainCell("@9x", i);
    assert "@a b"[2..] == " b";
    ColumnKeyOfPlainCell("@a b", i);
    assert "@raw(x"[2..] == "aw(x";
    ColumnKeyOfPlainCell("@raw(x", i);
  }

  lemma ExampleRawColumn()
    ensures ColumnKey("@raw", 0) == "__raw_0" && ColumnRole("@raw") == Some("raw")
  {
    ColumnKeyOfDirective("raw", None, 0);
    assert RenderAnnotation("raw", None) == "@raw";
    assert NatToString(0) == "0";
  }

  lemma ExamplePathArgument()
    ensures Arguments("path") == ["path"]
  {
    assert ',' !in "path";
    assert Split("path", ',') == ["path"];
    assert !IsWhitespace('p') && !IsWhitespace('h');
    assert Trim("path") == "path";
    TrimmedArgsOne("path");
  }

  lemma SampleDirectiveText()
    ensures RenderAnnotation("sample", Some("path")) == "@sample(path)"
  {
  }

  lemma ExampleSampleColumn()
    ensures ColumnKey("@sample(path)", 1) == "path" && ColumnRole("@sample(path)") == Some("sample")
  {
    SampleDirectiveText();
    ColumnKeyOfDirective("sample", Some("path"), 1);
    ExamplePathArgument();
  }

  lemma ExamplePairs()
    ensures ColumnPairs(["@raw", "@sample(path)"]) == [("__raw_0", 0), ("path", 1)]
  {
    ExampleRawColumn();
    ExampleSampleColumn();
    PairsOfTwo("@raw", "@sample(path)");
  }

  lemma PairsOfTwo(a: string, b: string)
    ensures ColumnPairs([a, b]) == [(ColumnKey(a, 0), 0), (ColumnKey(b, 1), 1)]
  {
    var p := ColumnPairs([a, b]);
    assert p[0] == (ColumnKey(a, 0), 0) && p[1] == (ColumnKey(b, 1), 1);
  }

  lemma ExampleRoles()
    ensures Roles(["@raw", "@sample(path)"]) == [Some("raw"), Some("sample")]
  {
    ExampleRawColumn();
    ExampleSampleColumn();
    RolesOfTwo("@raw", "@sample(path)");
  }

  lemma RolesOfTwo(a: string, b: string)
    ensures Roles([a, b]) == [ColumnRole(a), ColumnRole(b)]
  {
    var r := Roles([a, b]);
    assert r[0] == ColumnRole(a) && r[1] == ColumnRole(b);
  }

  /** The directive row of the unit test for `create_indices`: the raw column's key is `__raw_0`
      (so the test's lookup of `_raw_0` finds nothing), the sample column's key is `path`. */
  lemma CreateIndicesExample()
    ensures FromPairs(ColumnPairs(["@raw", "@sample(path)"])).keys == ["__raw_0", "path"]
    ensures FromPairs(ColumnPairs(["@raw", "@sample(path)"])).values == map["__raw_0" := 0, "path" := 1]
    ensures RoleIndices(["@raw", "@sample(path)"]) == map["raw" := 0, "sample" := 1]
  {
    ExamplePairs();
    ExampleRoles();
    TwoColumnIndices([("__raw_0", 0), ("path", 1)], [Some("raw"), Some("sample")]);
  }

  lemma TwoColumnIndices(pairs: seq<(string, nat)>, tags: seq<Option<string>>)
    requires pairs == [("__raw_0", 0), ("path", 1)] && tags == [Some("raw"), Some("sample")]
    ensures FromPairs(pairs).keys == ["__raw_0", "path"]
    ensures FromPairs(pairs).values == map["__raw_0" := 0, "path" := 1]
    ensures LastIndex(tags) == map["raw" := 0, "sample" := 1]
  {
    assert pairs[..1] == [("__raw_0", 0)];
    assert FromPairs(pairs[..1]) == OrderedMap(["__raw_0"], map["__raw_0" := 0]);
    assert tags[..1] == [Some("raw")] && [Some("raw")][..0] == [];
    assert LastIndex(tags[..1]) == map["raw" := 0];
  }
}
