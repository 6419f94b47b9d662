/** Sheet expansion (`insert_row`, `merge_row`, `expand_sheet`): every row's glob pattern is
    matched against the sample paths, and the unfolded rows are folded, row after row, into a
    table keyed by sample path where a later row's non-empty cells override earlier ones. */
module Expansion {
  import opened Wrappers
  import opened Text
  import opened OrderedMaps
  import opened Templates
  import opened PathRules

  /** The variables of a sample path, when the variable table has an entry for it. */
  function VarsOf(rowsVars: map<string, Vars>, path: string): Option<Vars> {
    if path in rowsVars then Some(rowsVars[path]) else None
  }

  /** A cell after template substitution: only done when the path has variables. */
  function Evaluate(cell: string, vars: Option<Vars>, eval: Evaluator): string {
    match vars {
      case None => cell
      case Some(_) => ApplyExpr(cell, vars, eval)
    }
  }

  /** The row `insert_row` stores: every cell evaluated. */
  function EvaluatedRow(row: Row, vars: Option<Vars>, eval: Evaluator): (r: Row)
    ensures |r| == |row| && forall i :: 0 <= i < |row| ==> r[i] == Evaluate(row[i], vars, eval)
  {
    seq(|row|, i requires 0 <= i < |row| => Evaluate(row[i], vars, eval))
  }

  /** The row `merge_row` leaves behind: the stored row, overwritten by every evaluated new cell
      that is not empty; cells past the shorter of the two rows are left alone. */
  function MergedRow(newRow: Row, oldRow: Row, vars: Option<Vars>, eval: Evaluator): (r: Row)
    ensures |r| == |oldRow|
    ensures forall i :: 0 <= i < |oldRow| ==>
              r[i] == if i < |newRow| && Evaluate(newRow[i], vars, eval) != "" then Evaluate(newRow[i], vars, eval) else oldRow[i]
  {
    seq(|oldRow|, i requires 0 <= i < |oldRow| =>
      if i < |newRow| && Evaluate(newRow[i], vars, eval) != "" then Evaluate(newRow[i], vars, eval) else oldRow[i])
  }

  /** `insert_row`. */
  method InsertRow(newRow: Row, vars: Option<Vars>, eval: Evaluator) returns (row: Row)
    ensures row == EvaluatedRow(newRow, vars, eval)
  {
    row := newRow;
    if vars.Some? {
      for i := 0 to |row|
        invariant |row| == |newRow|
        invariant forall j :: 0 <= j < i ==> row[j] == ApplyExpr(newRow[j], vars, eval)
        invariant forall j :: i <= j < |row| ==> row[j] == newRow[j]
      {
        row := row[i := ApplyExpr(row[i], vars, eval)];
      }
    }
  }

  /** `merge_row`: walks the two rows side by side and overwrites the stored cell with every
      evaluated new cell that is not empty. */
  method MergeRow(newRow: Row, oldRow: Row, vars: Option<Vars>, eval: Evaluator) returns (merged: Row)
    ensures merged == MergedRow(newRow, oldRow, vars, eval)
  {
    merged := oldRow;
    var n := if |newRow| < |oldRow| then |newRow| else |oldRow|;
    for i := 0 to n
      invariant |merged| == |oldRow|
      invariant forall j :: 0 <= j < i ==> merged[j] == MergedRow(newRow, oldRow, vars, eval)[j]
      invariant forall j :: i <= j < |oldRow| ==> merged[j] == oldRow[j]
    {
      var cell := newRow[i];
      if vars.Some? {
        cell := ApplyExpr(cell, vars, eval);
      }
      if cell != "" {
        merged := merged[i := cell];
      }
    }
  }

  /** One unfolded row entering the table under its path: merged into the row already stored
      there, or inserted. */
  function Absorb(acc: OrderedMap<Row>, key: string, newRow: Row, rowsVars: map<string, Vars>, eval: Evaluator): (r: OrderedMap<Row>)
    requires acc.Valid()
    ensures r.Valid()
  {
    var vars := VarsOf(rowsVars, key);
    if key in acc.values then acc.Put(key, MergedRow(newRow, acc.values[key], vars, eval))
    else acc.Put(key, EvaluatedRow(newRow, vars, eval))
  }

  /** The unfolded rows of one sheet row entering the table, path after path. */
  function AbsorbAll(acc: OrderedMap<Row>, keys: seq<string>, unfolded: map<string, Row>, rowsVars: map<string, Vars>, eval: Evaluator): (r: OrderedMap<Row>)
    requires acc.Valid() && forall k :: k in keys ==> k in unfolded
    ensures r.Valid()
  {
    if keys == [] then acc
    else
      var n := |keys| - 1;
      Absorb(AbsorbAll(acc, keys[..n], unfolded, rowsVars, eval), keys[n], unfolded[keys[n]], rowsVars, eval)
  }

  /** Absorbing distinct paths touches exactly those paths, each once; the outcome for a path
      depends only on whether it was stored before, not on the order of the paths. */
  lemma {:induction false} AbsorbAllEffect(acc: OrderedMap<Row>, keys: seq<string>, unfolded: map<string, Row>, rowsVars: map<string, Vars>, eval: Evaluator,
                                           r: OrderedMap<Row>)
    requires acc.Valid() && Distinct(keys) && forall k :: k in keys ==> k in unfolded
    requires r == AbsorbAll(acc, keys, unfolded, rowsVars, eval)
    ensures forall p :: p in r.values <==> p in acc.values || p in keys
    ensures forall p :: p in keys ==>
              r.values[p] == if p in acc.values then MergedRow(unfolded[p], acc.values[p], VarsOf(rowsVars, p), eval)
                             else EvaluatedRow(unfolded[p], VarsOf(rowsVars, p), eval)
    ensures forall p :: p in acc.values && p !in keys ==> r.values[p] == acc.values[p]
  {
    if keys != [] {
      var n := |keys| - 1;
      var init := keys[..n];
      assert forall p :: p in keys <==> p in init || p == keys[n];
      assert keys[n] !in init;
      AbsorbAllEffect(acc, init, unfolded, rowsVars, eval, AbsorbAll(acc, init, unfolded, rowsVars, eval));
    }
  }

  /** What one sheet's expansion needs besides the rows: the sample paths, the sample column, the
      rendering policy, the variable table and the two engines. */
  datatype Setting = Setting(paths: seq<string>, idx: nat, policy: Policy, rowsVars: map<string, Vars>, glob: Glob, eval: Evaluator)

  predicate Fits(rows: seq<Row>, idx: nat) {
    forall k :: 0 <= k < |rows| ==> idx < |rows[k]|
  }

  /** The per-row stage of `expand_sheet`: the row's pattern, compiled, unfolded over the
      sample paths it matches. */
  function Unfold(row: Row, st: Setting): (r: Result<OrderedMap<Row>, Failure>)
    requires st.idx < |row|
    ensures r.Ok? ==> r.value.Valid()
  {
    match RowPattern(row[st.idx]) {
      case Err(e) => Err(e)
      case Ok(pattern) =>
        if !st.glob.compiles(pattern) then Err(BadGlob(pattern))
        else Ok(MatchingPaths(st.paths, st.idx, row, pattern, st.glob, st.policy))
    }
  }

  /** A row that fails with a bad glob has that glob as its readable pattern, and it does not
      compile. */
  lemma UnfoldBadGlob(row: Row, st: Setting)
    requires st.idx < |row|
    ensures Unfold(row, st).Err? && Unfold(row, st).error.BadGlob? ==>
              RowPattern(row[st.idx]) == Ok(Unfold(row, st).error.pattern) && !st.glob.compiles(Unfold(row, st).error.pattern)
  {
  }

  ghost predicate PartsValid(parts: seq<OrderedMap<Row>>) {
    forall k :: 0 <= k < |parts| ==> parts[k].Valid()
  }

  /** `try_reduce` over the per-row results: every value when all rows succeed, otherwise the
      failure of a failing row. rayon leaves open which one; the model takes the first. */
  function Collect<T, E>(rs: seq<Result<T, E>>): (r: Result<seq<T>, E>)
    ensures r.Ok? <==> forall k :: 0 <= k < |rs| ==> rs[k].Ok?
    ensures r.Ok? ==> |r.value| == |rs| && forall k :: 0 <= k < |rs| ==> rs[k] == Ok(r.value[k])
  {
    if rs == [] then Ok([])
    else if rs[0].Err? then Err(rs[0].error)
    else
      var rest := Collect(rs[1..]);
      if rest.Err? then Err(rest.error)
      else
        assert forall k :: 1 <= k < |rs| ==> rs[k] == rs[1..][k - 1];
        Ok([rs[0].value] + rest.value)
  }

  /** The failure `Collect` reports comes from a result that no earlier failure precedes. */
  lemma {:induction false} CollectFailure<T, E>(rs: seq<Result<T, E>>)
    ensures Collect(rs).Err? ==> exists k :: 0 <= k < |rs| && rs[k] == Err(Collect(rs).error) && forall j :: 0 <= j < k ==> rs[j].Ok?
    decreases |rs|
  {
    if rs != [] && rs[0].Ok? && Collect(rs[1..]).Err? {
      CollectFailure(rs[1..]);
      CollectShift(rs, Collect(rs[1..]).error);
    }
  }

  /** A first failure of the tail, behind a success, is the first failure of the whole. */
  lemma CollectShift<T, E>(rs: seq<Result<T, E>>, e: E)
    requires rs != [] && rs[0].Ok?
    requires exists k :: 0 <= k < |rs| - 1 && rs[1..][k] == Err(e) && forall j :: 0 <= j < k ==> rs[1..][j].Ok?
    ensures exists k :: 0 <= k < |rs| && rs[k] == Err(e) && forall j :: 0 <= j < k ==> rs[j].Ok?
  {
    var k :| 0 <= k < |rs| - 1 && rs[1..][k] == Err(e) && forall j :: 0 <= j < k ==> rs[1..][j].Ok?;
    assert rs[k + 1] == Err(e);
    assert forall j :: 1 <= j < k + 1 ==> rs[j] == rs[1..][j - 1];
  }

  /** The failure `Collect` reports is the one of the first failing result. */
  lemma {:induction false} CollectFirstFailure<T, E>(rs: seq<Result<T, E>>, k: nat)
    requires k < |rs| && rs[k].Err? && forall j :: 0 <= j < k ==> rs[j].Ok?
    ensures Collect(rs) == Err(rs[k].error)
  {
    if k > 0 {
      assert rs[1..][k - 1] == rs[k];
      CollectFirstFailure(rs[1..], k - 1);
    }
  }

  /** Every row unfolded on its own, in row order. */
  function UnfoldRows(rows: seq<Row>, st: Setting): (rs: seq<Result<OrderedMap<Row>, Failure>>)
    requires Fits(rows, st.idx)
    ensures |rs| == |rows|
  {
    if rows == [] then [] else UnfoldRows(rows[..|rows| - 1], st) + [Unfold(rows[|rows| - 1], st)]
  }

  /** The `k`-th result is the `k`-th row unfolded. */
  lemma {:induction false} UnfoldRowsAt(rows: seq<Row>, st: Setting, k: nat)
    requires Fits(rows, st.idx) && k < |rows|
    ensures UnfoldRows(rows, st)[k] == Unfold(rows[k], st)
  {
    var n := |rows| - 1;
    if k < n {
      assert Fits(rows[..n], st.idx);
      UnfoldRowsAt(rows[..n], st, k);
      UnfoldRowsPrefix(rows, st, k);
    } else {
      UnfoldRowsLast(rows, st, k);
    }
  }

  lemma UnfoldRowsLast(rows: seq<Row>, st: Setting, k: nat)
    requires Fits(rows, st.idx) && k == |rows| - 1
    ensures UnfoldRows(rows, st)[k] == Unfold(rows[k], st)
  {
  }

  lemma UnfoldRowsPrefix(rows: seq<Row>, st: Setting, k: nat)
    requires Fits(rows, st.idx) && k < |rows| - 1
    requires UnfoldRows(rows[..|rows| - 1], st)[k] == Unfold(rows[..|rows| - 1][k], st)
    ensures UnfoldRows(rows, st)[k] == Unfold(rows[k], st)
  {
    assert rows[..|rows| - 1][k] == rows[k];
  }

  lemma UnfoldRowsEach(rows: seq<Row>, st: Setting)
    requires Fits(rows, st.idx)
    ensures forall k :: 0 <= k < |rows| ==> UnfoldRows(rows, st)[k] == Unfold(rows[k], st)
  {
    forall k | 0 <= k < |rows| ensures UnfoldRows(rows, st)[k] == Unfold(rows[k], st) {
      UnfoldRowsAt(rows, st, k);
    }
  }

  lemma UnfoldRowsValid(rows: seq<Row>, st: Setting)
    requires Fits(rows, st.idx)
    ensures forall k :: 0 <= k < |rows| && UnfoldRows(rows, st)[k].Ok? ==> UnfoldRows(rows, st)[k].value.Valid()
  {
    forall k | 0 <= k < |rows| && UnfoldRows(rows, st)[k].Ok? ensures UnfoldRows(rows, st)[k].value.Valid() {
      UnfoldRowsAt(rows, st, k);
    }
  }

  /** The unfolded parts of a sheet, or the failure of its first failing row. */
  function UnfoldAll(rows: seq<Row>, st: Setting): (r: Result<seq<OrderedMap<Row>>, Failure>)
    requires Fits(rows, st.idx)
    ensures r.Ok? ==> |r.value| == |rows| && PartsValid(r.value)
    ensures r.Ok? ==> forall k :: 0 <= k < |rows| ==> UnfoldRows(rows, st)[k] == Ok(r.value[k])
  {
    UnfoldRowsValid(rows, st);
    Collect(UnfoldRows(rows, st))
  }

  /** The reduction stage of `expand_sheet`: the unfolded rows entering the table in row order. */
  function Reduce(parts: seq<OrderedMap<Row>>, rowsVars: map<string, Vars>, eval: Evaluator): (r: OrderedMap<Row>)
    requires PartsValid(parts)
    ensures r.Valid()
  {
    if parts == [] then Empty()
    else
      var n := |parts| - 1;
      AbsorbAll(Reduce(parts[..n], rowsVars, eval), parts[n].keys, parts[n].values, rowsVars, eval)
  }

  /** `expand_sheet`: without a sample column, for an empty sheet, or when the first row's sample
      cell is empty, the sheet is passed through; otherwise one row per matched path. */
  function ExpandSheetSpec(rows: seq<Row>, paths: seq<string>, rowsVars: map<string, Vars>, sampleIdx: Option<nat>, glob: Glob, eval: Evaluator): Result<seq<Row>, Failure>
    requires sampleIdx.Some? ==> Fits(rows, sampleIdx.value)
  {
    if sampleIdx.None? || rows == [] || rows[0][sampleIdx.value] == "" then Ok(rows)
    else
      var policy := ChoosePolicy(rows[0][sampleIdx.value]);
      if policy.Err? then Err(policy.error)
      else
        ExpandRowsSpec(rows, Setting(paths, sampleIdx.value, policy.value, rowsVars, glob, eval))
  }

  /** The outcome of `expand_sheet`: the sheet is passed through without a sample column, for an
      empty sheet or an empty first sample cell; a lone `"` in the first sample cell panics; a
      bad glob is the readable pattern of one of the rows. */
  lemma ExpandSheetOutcome(rows: seq<Row>, paths: seq<string>, rowsVars: map<string, Vars>, sampleIdx: Option<nat>, glob: Glob, eval: Evaluator)
    requires sampleIdx.Some? ==> Fits(rows, sampleIdx.value)
    ensures sampleIdx.None? || rows == [] || rows[0][sampleIdx.value] == "" ==> ExpandSheetSpec(rows, paths, rowsVars, sampleIdx, glob, eval) == Ok(rows)
    ensures sampleIdx.Some? && rows != [] && rows[0][sampleIdx.value] == "\"" ==> ExpandSheetSpec(rows, paths, rowsVars, sampleIdx, glob, eval) == Err(Panic)
    ensures var r := ExpandSheetSpec(rows, paths, rowsVars, sampleIdx, glob, eval);
            r.Err? && r.error.BadGlob? ==>
              exists k :: 0 <= k < |rows| && RowPattern(rows[k][sampleIdx.value]) == Ok(r.error.pattern) && !glob.compiles(r.error.pattern)
  {
    if sampleIdx.Some? && rows != [] && rows[0][sampleIdx.value] != "" {
      var policy := ChoosePolicy(rows[0][sampleIdx.value]);
      if policy.Ok? {
        ExpandRowsBadGlob(rows, Setting(paths, sampleIdx.value, policy.value, rowsVars, glob, eval));
      }
    }
  }

  /** The map and reduce stages of `expand_sheet` once the policy is chosen: the rows of the
      table, in the order their paths were first stored. */
  function ExpandRowsSpec(rows: seq<Row>, st: Setting): Result<seq<Row>, Failure>
    requires Fits(rows, st.idx)
  {
    var parts := UnfoldAll(rows, st);
    if parts.Err? then Err(parts.error) else Ok(Reduce(parts.value, st.rowsVars, st.eval).Values())
  }

  /** The map stage decides the outcome: the sheet expands exactly when every row unfolds, and
      otherwise fails with the failure of the first row that does not. */
  lemma ExpandRowsOutcome(rows: seq<Row>, st: Setting)
    requires Fits(rows, st.idx)
    ensures ExpandRowsSpec(rows, st).Ok? <==> forall k :: 0 <= k < |rows| ==> Unfold(rows[k], st).Ok?
    ensures ExpandRowsSpec(rows, st).Err? ==>
              exists k :: 0 <= k < |rows| && Unfold(rows[k], st) == Err(ExpandRowsSpec(rows, st).error) && forall j :: 0 <= j < k ==> Unfold(rows[j], st).Ok?
  {
    ExpandRowsCollect(rows, st);
    UnfoldRowsEach(rows, st);
    CollectFailure(UnfoldRows(rows, st));
  }

  /** A bad glob that fails the sheet is the readable pattern of one of its rows. */
  lemma ExpandRowsBadGlob(rows: seq<Row>, st: Setting)
    requires Fits(rows, st.idx)
    ensures var r := ExpandRowsSpec(rows, st);
            r.Err? && r.error.BadGlob? ==>
              exists k :: 0 <= k < |rows| && RowPattern(rows[k][st.idx]) == Ok(r.error.pattern) && !st.glob.compiles(r.error.pattern)
  {
    var r := ExpandRowsSpec(rows, st);
    if r.Err? && r.error.BadGlob? {
      ExpandRowsOutcome(rows, st);
      var k :| 0 <= k < |rows| && Unfold(rows[k], st) == Err(r.error);
      UnfoldBadGlob(rows[k], st);
    }
  }

  /** The outcome of the map and reduce stages is the one of `Collect` over the unfolded rows. */
  lemma ExpandRowsCollect(rows: seq<Row>, st: Setting)
    requires Fits(rows, st.idx)
    ensures ExpandRowsSpec(rows, st).Ok? <==> Collect(UnfoldRows(rows, st)).Ok?
    ensures ExpandRowsSpec(rows, st).Err? ==> ExpandRowsSpec(rows, st).error == Collect(UnfoldRows(rows, st)).error
  {
  }

  lemma ReduceStep(parts: seq<OrderedMap<Row>>, m: OrderedMap<Row>, rowsVars: map<string, Vars>, eval: Evaluator)
    requires PartsValid(parts) && m.Valid()
    ensures PartsValid(parts + [m])
    ensures Reduce(parts + [m], rowsVars, eval) == AbsorbAll(Reduce(parts, rowsVars, eval), m.keys, m.values, rowsVars, eval)
  {
    assert (parts + [m])[..|parts|] == parts;
  }

  /** The three outcomes of unfolding row `i`, told apart the way the loop of `expand_sheet` does. */
  lemma RowOutcome(rows: seq<Row>, st: Setting, i: nat)
    requires Fits(rows, st.idx) && i < |rows|
    ensures RowPattern(rows[i][st.idx]).Err? ==> UnfoldRows(rows, st)[i] == Err(RowPattern(rows[i][st.idx]).error)
    ensures RowPattern(rows[i][st.idx]).Ok? && !st.glob.compiles(RowPattern(rows[i][st.idx]).value) ==>
              UnfoldRows(rows, st)[i] == Err(BadGlob(RowPattern(rows[i][st.idx]).value))
    ensures RowPattern(rows[i][st.idx]).Ok? && st.glob.compiles(RowPattern(rows[i][st.idx]).value) ==>
              UnfoldRows(rows, st)[i] == Ok(MatchingPaths(st.paths, st.idx, rows[i], RowPattern(rows[i][st.idx]).value, st.glob, st.policy))
  {
    UnfoldRowsAt(rows, st, i);
  }

  /** One more success extends the successful prefix. */
  lemma OkPrefix<T, E>(rs: seq<Result<T, E>>, vs: seq<T>, v: T)
    requires |vs| < |rs| && rs[|vs|] == Ok(v) && forall k :: 0 <= k < |vs| ==> rs[k] == Ok(vs[k])
    ensures forall k :: 0 <= k < |vs| + 1 ==> rs[k] == Ok((vs + [v])[k])
  {
  }

  /** `Collect` succeeds with the values when every result is a success. */
  lemma {:induction false} CollectAllOk<T, E>(rs: seq<Result<T, E>>, vs: seq<T>)
    requires |rs| == |vs| && forall k :: 0 <= k < |rs| ==> rs[k] == Ok(vs[k])
    ensures Collect(rs) == Ok(vs)
  {
    if rs != [] {
      assert forall k :: 0 <= k < |rs| - 1 ==> rs[1..][k] == Ok(vs[1..][k]);
      CollectAllOk(rs[1..], vs[1..]);
      assert vs == [vs[0]] + vs[1..];
    }
  }

  /** The body of the reducing closure of `expand_sheet`: the unfolded rows of one sheet row
      entering the table, merged into the stored row or inserted, path after path. */
  method AbsorbRows(acc0: OrderedMap<Row>, m: OrderedMap<Row>, rowsVars: map<string, Vars>, eval: Evaluator) returns (acc: OrderedMap<Row>)
    requires acc0.Valid() && m.Valid()
    ensures acc == AbsorbAll(acc0, m.keys, m.values, rowsVars, eval)
  {
    acc := acc0;
    for j := 0 to |m.keys|
      invariant acc.Valid() && acc == AbsorbAll(acc0, m.keys[..j], m.values, rowsVars, eval)
    {
      var key := m.keys[j];
      assert m.keys[..j + 1][..j] == m.keys[..j];
      var vars := VarsOf(rowsVars, key);
      if key in acc.values {
        var merged := MergeRow(m.values[key], acc.values[key], vars, eval);
        acc := acc.Put(key, merged);
      } else {
        var inserted := InsertRow(m.values[key], vars, eval);
        acc := acc.Put(key, inserted);
      }
    }
    assert m.keys[..|m.keys|] == m.keys;
  }

  /** `expand_sheet`, with the reduction written as the loop that updates the table. */
  method ExpandSheet(rows: seq<Row>, paths: seq<string>, rowsVars: map<string, Vars>, sampleIdx: Option<nat>, glob: Glob, eval: Evaluator)
    returns (r: Result<seq<Row>, Failure>)
    requires sampleIdx.Some? ==> Fits(rows, sampleIdx.value)
    ensures r == ExpandSheetSpec(rows, paths, rowsVars, sampleIdx, glob, eval)
    ensures sampleIdx.None? || rows == [] || rows[0][sampleIdx.value] == "" ==> r == Ok(rows)
  {
    if sampleIdx.None? || rows == [] || rows[0][sampleIdx.value] == "" {
      return Ok(rows);
    }
    var idx := sampleIdx.value;
    var policy;
    match ChoosePolicy(rows[0][idx]) {
      case Err(e) => return Err(e);
      case Ok(p) => policy := p;
    }
    r := ExpandRows(rows, Setting(paths, idx, policy, rowsVars, glob, eval));
  }

  /** The map and reduce stages of `expand_sheet`, the reduction written as the loop that
      updates the table. */
  method ExpandRows(rows: seq<Row>, st: Setting) returns (r: Result<seq<Row>, Failure>)
    requires Fits(rows, st.idx)
    ensures r == ExpandRowsSpec(rows, st)
  {
    var acc := Empty();
    ghost var parts: seq<OrderedMap<Row>> := [];
    ghost var results := UnfoldRows(rows, st);
    for i := 0 to |rows|
      invariant |parts| == i && PartsValid(parts)
      invariant forall j :: 0 <= j < i ==> results[j] == Ok(parts[j])
      invariant acc == Reduce(parts, st.rowsVars, st.eval)
    {
      var row := rows[i];
      RowOutcome(rows, st, i);
      var pattern;
      match RowPattern(row[st.idx]) {
        case Err(e) =>
          CollectFirstFailure(results, i);
          return Err(e);
        case Ok(p) => pattern := p;
      }
      if !st.glob.compiles(pattern) {
        CollectFirstFailure(results, i);
        return Err(BadGlob(pattern));
      }
      var m := MatchingPaths(st.paths, st.idx, row, pattern, st.glob, st.policy);
      ReduceStep(parts, m, st.rowsVars, st.eval);
      acc := AbsorbRows(acc, m, st.rowsVars, st.eval);
      OkPrefix(results, parts, m);
      parts := parts + [m];
    }
    CollectAllOk(results, parts);
    return Ok(acc.Values());
  }

  /** The unfolded part of a row holds exactly the sample paths its pattern matches, each with
      the row whose sample cell is that path rendered. */
  lemma UnfoldMeaning(row: Row, st: Setting, m: OrderedMap<Row>)
    requires st.idx < |row| && Unfold(row, st) == Ok(m)
    ensures RowPattern(row[st.idx]).Ok? && st.glob.compiles(RowPattern(row[st.idx]).value)
    ensures forall p :: p in m.values <==> p in st.paths && Selects(st.glob, RowPattern(row[st.idx]).value, p)
    ensures forall p :: p in m.values ==> m.values[p] == row[st.idx := RenderPath(st.policy, p)]
  {
    var pattern := RowPattern(row[st.idx]).value;
    MatchingPathsMeaning(st.paths, st.idx, row, pattern, st.glob, st.policy);
  }

  /** The paths the parts hold. */
  function PathsOf(parts: seq<OrderedMap<Row>>): set<string> {
    set k, p | 0 <= k < |parts| && p in parts[k].values :: p
  }

  lemma PathsOfLast(parts: seq<OrderedMap<Row>>)
    requires parts != []
    ensures forall p :: p in PathsOf(parts) <==> p in PathsOf(parts[..|parts| - 1]) || p in parts[|parts| - 1].values
  {
    var n := |parts| - 1;
    var init := parts[..n];
    forall p ensures p in PathsOf(parts) <==> p in PathsOf(init) || p in parts[n].values {
      if p in PathsOf(parts) {
        var k :| 0 <= k < |parts| && p in parts[k].values;
        if k < n { assert init[k] == parts[k]; }
      }
      if p in PathsOf(init) {
        var k :| 0 <= k < n && p in init[k].values;
        assert parts[k] == init[k];
      }
    }
  }

  /** The table holds exactly the paths some unfolded row holds. */
  lemma {:induction false} ReduceKeys(parts: seq<OrderedMap<Row>>, rowsVars: map<string, Vars>, eval: Evaluator)
    requires PartsValid(parts)
    ensures forall p :: p in Reduce(parts, rowsVars, eval).values <==> p in PathsOf(parts)
  {
    if parts != [] {
      var n := |parts| - 1;
      var init := parts[..n];
      ReduceKeys(init, rowsVars, eval);
      var acc0 := Reduce(init, rowsVars, eval);
      AbsorbAllEffect(acc0, parts[n].keys, parts[n].values, rowsVars, eval, Reduce(parts, rowsVars, eval));
      PathsOfLast(parts);
    }
  }

  /** The last non-empty text of a list, or `""` when there is none. */
  function LastNonEmpty(cs: seq<string>): string {
    if cs == [] then ""
    else if cs[|cs| - 1] != "" then cs[|cs| - 1]
    else LastNonEmpty(cs[..|cs| - 1])
  }

  /** Every unfolded row of the parts has `width` cells. */
  predicate Uniform(parts: seq<OrderedMap<Row>>, width: nat) {
    forall k, q :: 0 <= k < |parts| && q in parts[k].values ==> |parts[k].values[q]| == width
  }

  /** The evaluated cell `c` of every unfolded row for `p`, in row order. */
  function Contributions(parts: seq<OrderedMap<Row>>, p: string, c: nat, width: nat, rowsVars: map<string, Vars>, eval: Evaluator): seq<string>
    requires Uniform(parts, width) && c < width
  {
    if parts == [] then []
    else
      var n := |parts| - 1;
      var init := Contributions(parts[..n], p, c, width, rowsVars, eval);
      if p in parts[n].values then init + [Evaluate(parts[n].values[p][c], VarsOf(rowsVars, p), eval)] else init
  }

  /** A path gets contributions exactly when some unfolded row holds it. */
  lemma {:induction false} ContributionsEmpty(parts: seq<OrderedMap<Row>>, p: string, c: nat, width: nat, rowsVars: map<string, Vars>, eval: Evaluator)
    requires Uniform(parts, width) && c < width
    ensures Contributions(parts, p, c, width, rowsVars, eval) == [] <==> p !in PathsOf(parts)
  {
    if parts != [] {
      var n := |parts| - 1;
      var init := parts[..n];
      ContributionsEmpty(init, p, c, width, rowsVars, eval);
      if p !in parts[n].values {
        if p in PathsOf(parts) {
          var k :| 0 <= k < |parts| && p in parts[k].values;
          assert init[k] == parts[k];
        }
        if p in PathsOf(init) {
          var k :| 0 <= k < n && p in init[k].values;
          assert parts[k] == init[k];
        }
      }
    }
  }

  /** One step of the override law: a cell after one more unfolded row enters the table. */
  lemma CellStep(parts: seq<OrderedMap<Row>>, p: string, c: nat, width: nat, rowsVars: map<string, Vars>, eval: Evaluator,
                 acc0: OrderedMap<Row>, acc: OrderedMap<Row>)
    requires parts != [] && Uniform(parts, width) && c < width
    requires forall q :: q in acc0.values <==> q in PathsOf(parts[..|parts| - 1])
    requires forall q :: q in acc0.values ==> |acc0.values[q]| == width
    requires p in acc0.values ==> acc0.values[p][c] == LastNonEmpty(Contributions(parts[..|parts| - 1], p, c, width, rowsVars, eval))
    requires forall q :: q in acc.values <==> q in acc0.values || q in parts[|parts| - 1].keys
    requires parts[|parts| - 1].Valid()
    requires forall q :: q in parts[|parts| - 1].keys ==>
               acc.values[q] == if q in acc0.values then MergedRow(parts[|parts| - 1].values[q], acc0.values[q], VarsOf(rowsVars, q), eval)
                                else EvaluatedRow(parts[|parts| - 1].values[q], VarsOf(rowsVars, q), eval)
    requires forall q :: q in acc0.values && q !in parts[|parts| - 1].keys ==> acc.values[q] == acc0.values[q]
    requires p in acc.values && |acc.values[p]| == width
    ensures acc.values[p][c] == LastNonEmpty(Contributions(parts, p, c, width, rowsVars, eval))
  {
    var n := |parts| - 1;
    var init := parts[..n];
    var cs := Contributions(parts, p, c, width, rowsVars, eval);
    var cs0 := Contributions(init, p, c, width, rowsVars, eval);
    if p in parts[n].values {
      var e := Evaluate(parts[n].values[p][c], VarsOf(rowsVars, p), eval);
      assert cs == cs0 + [e];
      LastNonEmptySnoc(cs0, e, cs);
      if p !in acc0.values {
        ContributionsEmpty(init, p, c, width, rowsVars, eval);
      }
    } else {
      assert cs == cs0;
    }
  }

  /** The last non-empty text after one more text. */
  lemma LastNonEmptySnoc(cs0: seq<string>, e: string, cs: seq<string>)
    requires cs == cs0 + [e]
    ensures LastNonEmpty(cs) == if e != "" then e else LastNonEmpty(cs0)
  {
    assert cs[..|cs| - 1] == cs0;
  }

  /** The merge override law: in the table, each cell of a path's row is the last non-empty
      evaluated cell among the unfolded rows for that path, or `""` if all of them are empty;
      every stored row keeps the sheet's width. */
  lemma {:induction false} ReduceCells(parts: seq<OrderedMap<Row>>, width: nat, rowsVars: map<string, Vars>, eval: Evaluator)
    requires PartsValid(parts) && Uniform(parts, width)
    ensures forall p :: p in Reduce(parts, rowsVars, eval).values ==> |Reduce(parts, rowsVars, eval).values[p]| == width
    ensures forall p, c :: p in Reduce(parts, rowsVars, eval).values && 0 <= c < width ==>
              Reduce(parts, rowsVars, eval).values[p][c] == LastNonEmpty(Contributions(parts, p, c, width, rowsVars, eval))
  {
    if parts != [] {
      var n := |parts| - 1;
      var init := parts[..n];
      var acc0 := Reduce(init, rowsVars, eval);
      var acc := Reduce(parts, rowsVars, eval);
      ReduceCells(init, width, rowsVars, eval);
      ReduceKeys(init, rowsVars, eval);
      AbsorbAllEffect(acc0, parts[n].keys, parts[n].values, rowsVars, eval, acc);
      forall p | p in acc.values ensures |acc.values[p]| == width {
        if p in parts[n].keys && p in acc0.values {
          assert |acc.values[p]| == |acc0.values[p]|;
        }
      }
      forall p, c | p in acc.values && 0 <= c < width
        ensures acc.values[p][c] == LastNonEmpty(Contributions(parts, p, c, width, rowsVars, eval))
      {
        CellStep(parts, p, c, width, rowsVars, eval, acc0, acc);
      }
    }
  }

  /** Row `row` unfolds onto `p`: its pattern reads and selects `p`, one of the sample paths. */
  predicate MatchesRow(row: Row, st: Setting, p: string)
    requires st.idx < |row|
  {
    p in st.paths && RowPattern(row[st.idx]).Ok? && Selects(st.glob, RowPattern(row[st.idx]).value, p)
  }

  /** Some row of the sheet unfolds onto `p`. */
  predicate Matched(rows: seq<Row>, st: Setting, p: string)
    requires Fits(rows, st.idx)
  {
    exists i :: 0 <= i < |rows| && MatchesRow(rows[i], st, p)
  }

  /** The texts present in a list of optional texts, in order. */
  function Somes(opts: seq<Option<string>>): seq<string> {
    if opts == [] then []
    else
      var init := Somes(opts[..|opts| - 1]);
      if opts[|opts| - 1].Some? then init + [opts[|opts| - 1].value] else init
  }

  lemma {:induction false} SomesEmpty(opts: seq<Option<string>>)
    ensures Somes(opts) == [] <==> forall k :: 0 <= k < |opts| ==> opts[k].None?
  {
    if opts != [] {
      var init := opts[..|opts| - 1];
      SomesEmpty(init);
      assert forall k :: 0 <= k < |init| ==> init[k] == opts[k];
    }
  }

  lemma {:induction false} SomesConstant(opts: seq<Option<string>>, x: string)
    requires forall k :: 0 <= k < |opts| && opts[k].Some? ==> opts[k].value == x
    ensures forall i :: 0 <= i < |Somes(opts)| ==> Somes(opts)[i] == x
  {
    if opts != [] {
      var init := opts[..|opts| - 1];
      assert forall k :: 0 <= k < |init| ==> init[k] == opts[k];
      SomesConstant(init, x);
    }
  }

  /** For each row, cell `c` of its unfolding onto `p` (the sample cell replaced by the rendered
      path, evaluated with the path's variables), when it unfolds onto `p`. */
  function RowOpts(rows: seq<Row>, st: Setting, p: string, c: nat): (opts: seq<Option<string>>)
    requires Fits(rows, st.idx) && forall k :: 0 <= k < |rows| ==> c < |rows[k]|
    ensures |opts| == |rows|
    ensures forall k :: 0 <= k < |rows| ==>
              opts[k] == (if MatchesRow(rows[k], st, p) then Some(Evaluate(rows[k][st.idx := RenderPath(st.policy, p)][c], VarsOf(st.rowsVars, p), st.eval)) else None)
  {
    seq(|rows|, k requires 0 <= k < |rows| && Fits(rows, st.idx) && (forall k :: 0 <= k < |rows| ==> c < |rows[k]|) =>
      if MatchesRow(rows[k], st, p) then Some(Evaluate(rows[k][st.idx := RenderPath(st.policy, p)][c], VarsOf(st.rowsVars, p), st.eval)) else None)
  }

  /** Cell `c` of every row unfolded onto `p`, in row order. */
  function RowContributions(rows: seq<Row>, st: Setting, p: string, c: nat): seq<string>
    requires Fits(rows, st.idx) && forall k :: 0 <= k < |rows| ==> c < |rows[k]|
  {
    Somes(RowOpts(rows, st, p, c))
  }

  /** For each unfolded part, its evaluated cell `c` for `p`, when it holds `p`. */
  function PartOpts(parts: seq<OrderedMap<Row>>, p: string, c: nat, width: nat, rowsVars: map<string, Vars>, eval: Evaluator): (opts: seq<Option<string>>)
    requires Uniform(parts, width) && c < width
    ensures |opts| == |parts|
    ensures forall k :: 0 <= k < |parts| ==>
              opts[k] == (if p in parts[k].values then Some(Evaluate(parts[k].values[p][c], VarsOf(rowsVars, p), eval)) else None)
  {
    seq(|parts|, k requires 0 <= k < |parts| && Uniform(parts, width) && c < width =>
      if p in parts[k].values then Some(Evaluate(parts[k].values[p][c], VarsOf(rowsVars, p), eval)) else None)
  }

  lemma {:induction false} ContributionsSomes(parts: seq<OrderedMap<Row>>, p: string, c: nat, width: nat, rowsVars: map<string, Vars>, eval: Evaluator)
    requires Uniform(parts, width) && c < width
    ensures Contributions(parts, p, c, width, rowsVars, eval) == Somes(PartOpts(parts, p, c, width, rowsVars, eval))
  {
    if parts != [] {
      var n := |parts| - 1;
      ContributionsSomes(parts[..n], p, c, width, rowsVars, eval);
      assert PartOpts(parts, p, c, width, rowsVars, eval)[..n] == PartOpts(parts[..n], p, c, width, rowsVars, eval);
    }
  }

  /** Part `k` holds, for `p`, exactly what row `k` unfolds onto `p`. */
  lemma OptAt(rows: seq<Row>, st: Setting, parts: seq<OrderedMap<Row>>, p: string, c: nat, width: nat, k: nat)
    requires Fits(rows, st.idx) && forall j :: 0 <= j < |rows| ==> |rows[j]| == width
    requires c < width && Uniform(parts, width) && k < |rows|
    requires |parts| == |rows| && UnfoldRows(rows, st)[k] == Ok(parts[k])
    ensures PartOpts(parts, p, c, width, st.rowsVars, st.eval)[k] == RowOpts(rows, st, p, c)[k]
  {
    UnfoldRowsAt(rows, st, k);
    UnfoldMeaning(rows[k], st, parts[k]);
  }

  /** The paths of the expanded sheet, in the order they were first stored. */
  function ExpandedKeys(rows: seq<Row>, st: Setting): seq<string>
    requires Fits(rows, st.idx) && UnfoldAll(rows, st).Ok?
  {
    Reduce(UnfoldAll(rows, st).value, st.rowsVars, st.eval).keys
  }

  /** The unfolded rows of a sheet whose rows are `width` wide are `width` wide. */
  lemma PartsUniform(rows: seq<Row>, st: Setting, parts: seq<OrderedMap<Row>>, width: nat)
    requires Fits(rows, st.idx) && forall k :: 0 <= k < |rows| ==> |rows[k]| == width
    requires |parts| == |rows| && forall k :: 0 <= k < |rows| ==> UnfoldRows(rows, st)[k] == Ok(parts[k])
    ensures Uniform(parts, width)
  {
    forall k, q | 0 <= k < |parts| && q in parts[k].values ensures |parts[k].values[q]| == width {
      UnfoldRowsAt(rows, st, k);
      UnfoldMeaning(rows[k], st, parts[k]);
    }
  }

  /** The unfolded parts hold exactly the paths some row unfolds onto. */
  lemma PartsPaths(rows: seq<Row>, st: Setting, parts: seq<OrderedMap<Row>>)
    requires Fits(rows, st.idx)
    requires |parts| == |rows| && forall k :: 0 <= k < |rows| ==> UnfoldRows(rows, st)[k] == Ok(parts[k])
    ensures forall p :: p in PathsOf(parts) <==> Matched(rows, st, p)
  {
    forall p ensures p in PathsOf(parts) <==> Matched(rows, st, p) {
      if p in PathsOf(parts) {
        var k :| 0 <= k < |parts| && p in parts[k].values;
        UnfoldRowsAt(rows, st, k);
        UnfoldMeaning(rows[k], st, parts[k]);
        assert MatchesRow(rows[k], st, p);
      }
      if Matched(rows, st, p) {
        var k :| 0 <= k < |rows| && MatchesRow(rows[k], st, p);
        UnfoldRowsAt(rows, st, k);
        UnfoldMeaning(rows[k], st, parts[k]);
      }
    }
  }

  /** The contributions of the unfolded parts are those of the rows that unfold onto the path. */
  lemma ContributionsOfRows(rows: seq<Row>, st: Setting, parts: seq<OrderedMap<Row>>, p: string, c: nat, width: nat)
    requires Fits(rows, st.idx) && forall k :: 0 <= k < |rows| ==> |rows[k]| == width
    requires c < width && Uniform(parts, width)
    requires |parts| == |rows| && forall k :: 0 <= k < |rows| ==> UnfoldRows(rows, st)[k] == Ok(parts[k])
    ensures Contributions(parts, p, c, width, st.rowsVars, st.eval) == RowContributions(rows, st, p, c)
  {
    forall k | 0 <= k < |rows| ensures PartOpts(parts, p, c, width, st.rowsVars, st.eval)[k] == RowOpts(rows, st, p, c)[k] {
      OptAt(rows, st, parts, p, c, width, k);
    }
    assert PartOpts(parts, p, c, width, st.rowsVars, st.eval) == RowOpts(rows, st, p, c);
    ContributionsSomes(parts, p, c, width, st.rowsVars, st.eval);
  }

  /** The last non-empty text of a list of copies of one text is that text. */
  lemma {:induction false} LastNonEmptyOfConstant(cs: seq<string>, x: string)
    requires cs != [] && forall i :: 0 <= i < |cs| ==> cs[i] == x
    ensures LastNonEmpty(cs) == x
  {
    if x == "" && |cs| > 1 {
      LastNonEmptyOfConstant(cs[..|cs| - 1], x);
    }
  }

  /** Every contribution to the sample cell of `p` is the rendered path, evaluated. */
  lemma SampleContributions(rows: seq<Row>, st: Setting, p: string)
    requires Fits(rows, st.idx)
    ensures forall i :: 0 <= i < |RowContributions(rows, st, p, st.idx)| ==>
              RowContributions(rows, st, p, st.idx)[i] == Evaluate(RenderPath(st.policy, p), VarsOf(st.rowsVars, p), st.eval)
  {
    var opts := RowOpts(rows, st, p, st.idx);
    forall k | 0 <= k < |opts| && opts[k].Some?
      ensures opts[k].value == Evaluate(RenderPath(st.policy, p), VarsOf(st.rowsVars, p), st.eval)
    {
      assert rows[k][st.idx := RenderPath(st.policy, p)][st.idx] == RenderPath(st.policy, p);
    }
    SomesConstant(opts, Evaluate(RenderPath(st.policy, p), VarsOf(st.rowsVars, p), st.eval));
  }

  /** A path gets contributions exactly when some row unfolds onto it. */
  lemma ContributionsIffMatched(rows: seq<Row>, st: Setting, p: string, c: nat)
    requires Fits(rows, st.idx) && forall k :: 0 <= k < |rows| ==> c < |rows[k]|
    ensures RowContributions(rows, st, p, c) == [] <==> !Matched(rows, st, p)
  {
    SomesEmpty(RowOpts(rows, st, p, c));
  }

  /** What `expand_sheet` yields once the policy is chosen, for a sheet whose rows are `width`
      wide: one row per sample path some row unfolds onto, each listed once; every row `width`
      wide; and each cell the last non-empty evaluated cell among the rows unfolded onto that
      path (a later row's cell overrides an earlier one unless it is empty). */
  lemma ExpandedRows(rows: seq<Row>, st: Setting, width: nat)
    requires Fits(rows, st.idx) && forall k :: 0 <= k < |rows| ==> |rows[k]| == width
    requires ExpandRowsSpec(rows, st).Ok?
    ensures UnfoldAll(rows, st).Ok?
    ensures |ExpandRowsSpec(rows, st).value| == |ExpandedKeys(rows, st)| && Distinct(ExpandedKeys(rows, st))
    ensures forall p :: p in ExpandedKeys(rows, st) <==> Matched(rows, st, p)
    ensures forall j :: 0 <= j < |ExpandedKeys(rows, st)| ==> |ExpandRowsSpec(rows, st).value[j]| == width
    ensures forall j, c :: 0 <= j < |ExpandedKeys(rows, st)| && 0 <= c < width ==>
              ExpandRowsSpec(rows, st).value[j][c] == LastNonEmpty(RowContributions(rows, st, ExpandedKeys(rows, st)[j], c))
  {
    var parts := UnfoldAll(rows, st).value;
    var acc := Reduce(parts, st.rowsVars, st.eval);
    assert ExpandRowsSpec(rows, st).value == acc.Values() && ExpandedKeys(rows, st) == acc.keys;
    TableRows(rows, st, parts, width);
  }

  /** The table the unfolded rows of a sheet reduce to, in terms of the sheet's rows. */
  lemma TableRows(rows: seq<Row>, st: Setting, parts: seq<OrderedMap<Row>>, width: nat)
    requires Fits(rows, st.idx) && forall k :: 0 <= k < |rows| ==> |rows[k]| == width
    requires |parts| == |rows| && PartsValid(parts) && forall k :: 0 <= k < |rows| ==> UnfoldRows(rows, st)[k] == Ok(parts[k])
    ensures forall p :: p in Reduce(parts, st.rowsVars, st.eval).values <==> Matched(rows, st, p)
    ensures forall p :: p in Reduce(parts, st.rowsVars, st.eval).values ==> |Reduce(parts, st.rowsVars, st.eval).values[p]| == width
    ensures forall p, c :: p in Reduce(parts, st.rowsVars, st.eval).values && 0 <= c < width ==>
              Reduce(parts, st.rowsVars, st.eval).values[p][c] == LastNonEmpty(RowContributions(rows, st, p, c))
  {
    var acc := Reduce(parts, st.rowsVars, st.eval);
    PartsUniform(rows, st, parts, width);
    PartsPaths(rows, st, parts);
    ReduceKeys(parts, st.rowsVars, st.eval);
    ReduceCells(parts, width, st.rowsVars, st.eval);
    forall p, c | p in acc.values && 0 <= c < width
      ensures acc.values[p][c] == LastNonEmpty(RowContributions(rows, st, p, c))
    {
      ContributionsOfRows(rows, st, parts, p, c, width);
    }
  }

  /** Each expanded row's sample cell is its own path, rendered by the policy and evaluated. */
  lemma ExpandedSampleCell(rows: seq<Row>, st: Setting, width: nat, j: nat)
    requires Fits(rows, st.idx) && forall k :: 0 <= k < |rows| ==> |rows[k]| == width
    requires ExpandRowsSpec(rows, st).Ok?
    requires UnfoldAll(rows, st).Ok? && j < |ExpandedKeys(rows, st)|
    ensures j < |ExpandRowsSpec(rows, st).value| && st.idx < |ExpandRowsSpec(rows, st).value[j]|
    ensures ExpandRowsSpec(rows, st).value[j][st.idx] ==
              Evaluate(RenderPath(st.policy, ExpandedKeys(rows, st)[j]), VarsOf(st.rowsVars, ExpandedKeys(rows, st)[j]), st.eval)
  {
    ExpandedRows(rows, st, width);
    var p := ExpandedKeys(rows, st)[j];
    var x := Evaluate(RenderPath(st.policy, p), VarsOf(st.rowsVars, p), st.eval);
    assert p in ExpandedKeys(rows, st);
    var k :| 0 <= k < |rows| && MatchesRow(rows[k], st, p);
    SampleContributions(rows, st, p);
    ContributionsIffMatched(rows, st, p, st.idx);
    LastNonEmptyOfConstant(RowContributions(rows, st, p, st.idx), x);
  }

  /** With a template-free rendered path, the sample cell is exactly the rendered path. */
  lemma ExpandedSamplePath(rows: seq<Row>, st: Setting, width: nat, j: nat)
    requires Fits(rows, st.idx) && forall k :: 0 <= k < |rows| ==> |rows[k]| == width
    requires ExpandRowsSpec(rows, st).Ok?
    requires UnfoldAll(rows, st).Ok? && j < |ExpandedKeys(rows, st)|
    requires !HasTemplate(RenderPath(st.policy, ExpandedKeys(rows, st)[j]))
    ensures j < |ExpandRowsSpec(rows, st).value| && st.idx < |ExpandRowsSpec(rows, st).value[j]|
    ensures ExpandRowsSpec(rows, st).value[j][st.idx] == RenderPath(st.policy, ExpandedKeys(rows, st)[j])
  {
    ExpandedSampleCell(rows, st, width, j);
    NoTemplateUnchanged(RenderPath(st.policy, ExpandedKeys(rows, st)[j]), VarsOf(st.rowsVars, ExpandedKeys(rows, st)[j]), st.eval);
  }
}
