/** How a sheet's sample column is read: the glob pattern of each row (`trim_pair`,
    `trim_comment_prefix`), the rendering policy for matched paths chosen from the first row,
    and the rows a pattern unfolds into (`matching_paths`). */
module PathRules {
  import opened Wrappers
  import opened Text
  import opened OrderedMaps

  type Row = seq<string>

  /** Why a sheet cannot be expanded: a glob pattern that does not compile (an `Err` in the
      source), or a cell that is a lone `"` (a slice that panics in the source). */
  datatype Failure = BadGlob(pattern: string) | Panic

  /** The glob engine: whether a pattern compiles, and whether a compiled pattern matches a path. */
  datatype Glob = Glob(compiles: string -> bool, isMatch: (string, string) -> bool)

  /** How a matched path is written into the sample cell: as it is, cleared, or in quotes. */
  datatype Policy = Pass | Clear | Requote

  predicate Quoted(s: string) {
    |s| >= 1 && s[0] == '"' && s[|s| - 1] == '"'
  }

  /** `trim_pair`: the text between a surrounding pair of `"`, `None` when there is no such
      pair; a lone `"` both starts and ends with a quote and its slice `[1..0]` panics. */
  function TrimPair(s: string): (r: Result<Option<string>, Failure>)
    ensures r.Err? <==> s == "\""
    ensures r == Ok(None) <==> !Quoted(s)
    ensures r.Ok? && r.value.Some? ==> s == "\"" + r.value.value + "\""
  {
    if Quoted(s) then
      if |s| == 1 then Err(Panic) else Ok(Some(s[1..|s| - 1]))
    else
      Ok(None)
  }

  /** Quoting and `trim_pair` are inverse. */
  lemma TrimPairOfQuoted(x: string)
    ensures TrimPair("\"" + x + "\"") == Ok(Some(x))
  {
    var s := "\"" + x + "\"";
    assert s[1..|s| - 1] == x;
  }

  /** `trim_start_matches("//")`: every leading `//` removed. */
  function StripSlashes(s: string): (r: string)
    ensures |r| <= |s| && r == s[|s| - |r|..]
    ensures (|s| - |r|) % 2 == 0 && forall i :: 0 <= i < |s| - |r| ==> s[i] == '/'
    ensures !StartsWith(r, "//")
    decreases |s|
  {
    if StartsWith(s, "//") then StripSlashes(s[2..]) else s
  }

  /** `trim_comment_prefix`: for a cell starting with `//`, the rest after all leading `//` and
      the whitespace that follows them. */
  function TrimCommentPrefix(s: string): (r: Option<string>)
    ensures r.Some? <==> StartsWith(s, "//")
    ensures r.Some? ==> |r.value| < |s| && r.value == s[|s| - |r.value|..]
    ensures r.Some? ==> forall i :: 0 <= i < |s| - |r.value| ==> s[i] == '/' || IsWhitespace(s[i])
    ensures r.Some? && r.value != [] ==> !IsWhitespace(r.value[0])
  {
    if StartsWith(s, "//") then
      var t := StripSlashes(s);
      var u := TrimStart(t);
      SuffixOfSuffix(s, t, u);
      Some(u)
    else
      None
  }

  lemma SuffixOfSuffix(s: string, t: string, u: string)
    requires |t| <= |s| && t == s[|s| - |t|..] && |u| <= |t| && u == t[|t| - |u|..]
    ensures u == s[|s| - |u|..]
    ensures forall i :: |s| - |t| <= i < |s| - |u| ==> s[i] == t[i - (|s| - |t|)]
  {
  }

  /** A comment marker and the blanks after it are dropped. */
  lemma TrimCommentOfMarked(x: string)
    requires x != [] && x[0] != '/' && !IsWhitespace(x[0])
    ensures TrimCommentPrefix("//" + x) == Some(x)
  {
    var s := "//" + x;
    assert StartsWith(s, "//") && s[2..] == x;
    assert StripSlashes(s) == StripSlashes(x);
    assert !StartsWith(x, "//");
    assert StripSlashes(x) == x;
    assert TrimStart(x) == x;
  }

  /** The policy the first row's sample cell selects: a comment clears the matched paths, which
      wins over quotes; a quoted cell quotes them; anything else writes them as they are. */
  function ChoosePolicy(first: string): (r: Result<Policy, Failure>)
    ensures r == Ok(Clear) <==> StartsWith(first, "//")
    ensures r.Err? <==> first == "\""
    ensures r == Ok(Requote) <==> !StartsWith(first, "//") && |first| >= 2 && Quoted(first)
    ensures r == Ok(Pass) <==> !StartsWith(first, "//") && !Quoted(first)
  {
    if TrimCommentPrefix(first).Some? then Ok(Clear)
    else
      match TrimPair(first) {
        case Err(e) => Err(e)
        case Ok(Some(_)) => Ok(Requote)
        case Ok(None) => Ok(Pass)
      }
  }

  /** The sample cell written for a matched path under a policy. */
  function RenderPath(policy: Policy, path: string): (r: string)
    ensures policy == Pass ==> r == path
    ensures policy == Clear ==> r == ""
    ensures policy == Requote ==> Quoted(r) && TrimPair(r) == Ok(Some(path))
  {
    match policy {
      case Pass => path
      case Clear => ""
      case Requote => "\"" + path + "\""
    }
  }

  /** A re-quoted path is read back, as the next pattern, as the path itself; a passed-through
      path that is not quoted is its own pattern. */
  lemma RenderedPathReadsBack(path: string)
    ensures ChoosePolicy(RenderPath(Requote, path)) == Ok(Requote)
    ensures RowPattern(RenderPath(Requote, path)) == Ok(path)
    ensures !StartsWith(path, "//") && !Quoted(path) ==>
              ChoosePolicy(RenderPath(Pass, path)) == Ok(Pass) && RowPattern(RenderPath(Pass, path)) == Ok(path)
  {
    TrimPairOfQuoted(path);
    var q := "\"" + path + "\"";
    assert q[0] == '"';
    assert !StartsWith(q, "//");
  }

  /** The glob pattern of a row: the text inside a quote pair, looked for after a comment marker
      if there is one; when there is no pair, the cell as it is, comment marker included. */
  function RowPattern(cell: string): (r: Result<string, Failure>)
    ensures r.Ok? && r.value != cell ==> Quoted(cell) || StartsWith(cell, "//")
  {
    match TrimPair(PatternBase(cell)) {
      case Err(e) => Err(e)
      case Ok(Some(inner)) => Ok(inner)
      case Ok(None) => Ok(cell)
    }
  }

  /** The text `expand_sheet` looks for quotes in: the cell after its comment marker, or the
      cell itself when it has none. */
  function PatternBase(cell: string): (base: string)
    ensures StartsWith(cell, "//") ==> base == TrimCommentPrefix(cell).value
    ensures !StartsWith(cell, "//") ==> base == cell
    ensures |base| <= |cell| && base == cell[|cell| - |base|..]
  {
    match TrimCommentPrefix(cell)
    case Some(t) => t
    case None => cell
  }

  /** A quoted pattern, commented out or not and whatever the blanks after the marker, is the
      text between the quotes; a lone quote fails. */
  lemma PatternOfQuoted(cell: string)
    ensures var base := PatternBase(cell);
            |base| >= 2 && Quoted(base) ==> RowPattern(cell) == Ok(base[1..|base| - 1])
    ensures PatternBase(cell) == "\"" ==> RowPattern(cell) == Err(Panic)
  {
    var base := PatternBase(cell);
    if |base| >= 2 && Quoted(base) {
      assert TrimPair(base) == Ok(Some(base[1..|base| - 1]));
    }
  }

  /** A cell without a quote pair, commented out or not, is its own pattern: the comment
      marker stays in the pattern. */
  lemma PatternOfCommentedPlain(cell: string)
    ensures !Quoted(PatternBase(cell)) ==> RowPattern(cell) == Ok(cell)
    ensures StartsWith(cell, "//") && !Quoted(TrimCommentPrefix(cell).value) ==> RowPattern(cell) == Ok(cell)
  {
  }

  /** Quoting a text, with or without a comment marker in front, and reading the pattern back
      gives the text. */
  lemma QuotedPatternReadsBack(x: string)
    ensures RowPattern("\"" + x + "\"") == Ok(x)
    ensures RowPattern("//\"" + x + "\"") == Ok(x)
  {
    TrimPairOfQuoted(x);
    var q := "\"" + x + "\"";
    assert q[0] == '"' && !StartsWith(q, "//");
    assert "//\"" + x + "\"" == "//" + q;
    TrimCommentOfMarked(q);
  }

  /** Whether row patterns select `path`. */
  predicate Selects(glob: Glob, pattern: string, path: string) {
    glob.isMatch(pattern, path)
  }

  /** `matching_paths`: the sample paths the pattern matches, collected in order, each with a
      copy of the row whose sample cell holds the rendered path. */
  function MatchingPaths(paths: seq<string>, idx: nat, row: Row, pattern: string, glob: Glob, policy: Policy): (m: OrderedMap<Row>)
    requires idx < |row|
    ensures m.Valid()
    ensures forall k :: 0 <= k < |m.keys| ==> m.keys[k] in paths && Selects(glob, pattern, m.keys[k])
    ensures forall p :: p in m.values ==> m.values[p] == row[idx := RenderPath(policy, p)]
  {
    if paths == [] then Empty()
    else
      var init := MatchingPaths(paths[..|paths| - 1], idx, row, pattern, glob, policy);
      var p := paths[|paths| - 1];
      if Selects(glob, pattern, p) then init.Put(p, row[idx := RenderPath(policy, p)]) else init
  }

  /** The unfolded rows are keyed by exactly the sample paths the pattern matches, and the row
      for a path differs from the original only in its sample cell, which holds the rendered path. */
  lemma {:induction false} MatchingPathsMeaning(paths: seq<string>, idx: nat, row: Row, pattern: string, glob: Glob, policy: Policy)
    requires idx < |row|
    ensures forall p :: p in MatchingPaths(paths, idx, row, pattern, glob, policy).values <==> p in paths && Selects(glob, pattern, p)
    ensures forall p :: p in MatchingPaths(paths, idx, row, pattern, glob, policy).values ==>
              MatchingPaths(paths, idx, row, pattern, glob, policy).values[p] == row[idx := RenderPath(policy, p)]
  {
    if paths != [] {
      var init := paths[..|paths| - 1];
      MatchingPathsMeaning(init, idx, row, pattern, glob, policy);
      assert forall q :: q in paths <==> q in init || q == paths[|paths| - 1];
    }
  }
}
