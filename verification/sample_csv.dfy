/** A sample sheet: the rows `parse_sample_csv` reads, their expansion sheet by sheet
    (`expand_sample_csv`) and the SFZ text written from them (`generate_sfz_file`). */
module SampleCsvs {
  import opened Wrappers
  import opened Text
  import opened OrderedMaps
  import opened Annotations
  import opened Segmentation
  import opened Templates
  import opened PathRules
  import opened Expansion

  /** Why a sheet cannot be read: there is no directive row, or no `@header` column. */
  datatype CsvError = NoOpcodeRow | NoHeaderColumn

  /** The data records that survive the reader: a record with another number of fields than
      the directive row is a reader error, which the source skips. */
  function SameWidth(records: seq<Row>, width: nat): (rows: seq<Row>)
    ensures |rows| <= |records|
    ensures forall k :: 0 <= k < |rows| ==> |rows[k]| == width
    ensures forall r :: r in rows <==> r in records && |r| == width
  {
    if records == [] then []
    else
      var n := |records| - 1;
      var init := SameWidth(records[..n], width);
      assert forall r :: r in records <==> r in records[..n] || r == records[n];
      if |records[n]| == width then init + [records[n]] else init
  }

  /** A single record survives exactly when it has the directive row's width. */
  lemma SameWidthOne(r: Row, width: nat)
    ensures SameWidth([r], width) == (if |r| == width then [r] else [])
  {
    assert [r][..0] == [];
  }

  /** The filter works record by record: the reader keeps the order of the records it keeps. */
  lemma {:induction false} SameWidthAppend(a: seq<Row>, b: seq<Row>, width: nat)
    ensures SameWidth(a + b, width) == SameWidth(a, width) + SameWidth(b, width)
    decreases |b|
  {
    if b == [] {
      assert a + b == a;
    } else {
      var n := |b| - 1;
      assert (a + b)[..|a + b| - 1] == a + b[..n];
      assert (a + b)[|a + b| - 1] == b[n];
      SameWidthAppend(a, b[..n], width);
    }
  }

  /** Every range lies inside `0..n`. */
  predicate RangesWithin(ranges: seq<Range>, n: nat) {
    forall k :: 0 <= k < |ranges| ==> ranges[k].start <= ranges[k].end <= n
  }

  /** Every indexed column lies inside every row. */
  predicate ColumnsFit(annoIndices: map<string, nat>, rows: seq<Row>) {
    forall k, role :: 0 <= k < |rows| && role in annoIndices ==> annoIndices[role] < |rows[k]|
  }

  /** The column of the `@sample` directive, if there is one. */
  function SampleIdx(annoIndices: map<string, nat>): Option<nat> {
    if "sample" in annoIndices then Some(annoIndices["sample"]) else None
  }

  class SampleCsv {
    /** Output key of every column, in column order. */
    var opcodeIndices: OrderedMap<nat>
    /** Column of each directive role (`raw`, `sample`, `header`). */
    var annoIndices: map<string, nat>
    /** The sheets, as ranges of rows. */
    var headerRanges: seq<Range>
    var rows: seq<Row>

    /** The sheet as parsed: the key index is well formed, every directive column lies inside
        every row, and the ranges lie inside the rows. */
    ghost predicate Valid()
      reads this
    {
      && opcodeIndices.Valid()
      && ColumnsFit(annoIndices, rows)
      && RangesWithin(headerRanges, |rows|)
    }

    constructor(opcodeIndices: OrderedMap<nat>, annoIndices: map<string, nat>, headerRanges: seq<Range>, rows: seq<Row>)
      ensures this.opcodeIndices == opcodeIndices && this.annoIndices == annoIndices
      ensures this.headerRanges == headerRanges && this.rows == rows
    {
      this.opcodeIndices := opcodeIndices;
      this.annoIndices := annoIndices;
      this.headerRanges := headerRanges;
      this.rows := rows;
    }

    /** `expand_sample_csv`: every sheet expanded on its own and the results concatenated in
        sheet order; on a failure the rows are left as they were. The ranges are not updated,
        as in the source. */
    method ExpandSampleCsv(paths: seq<string>, rowsVars: map<string, Vars>, glob: Glob, eval: Evaluator) returns (r: Result<(), Failure>)
      requires Valid()
      modifies this
      ensures opcodeIndices == old(opcodeIndices) && annoIndices == old(annoIndices) && headerRanges == old(headerRanges)
      ensures r.Ok? <==> ExpandSheets(old(rows), headerRanges, paths, rowsVars, SampleIdx(annoIndices), glob, eval).Ok?
      ensures r.Ok? ==> rows == ExpandSheets(old(rows), headerRanges, paths, rowsVars, SampleIdx(annoIndices), glob, eval).value
      ensures r.Err? ==> rows == old(rows) && r.error == ExpandSheets(old(rows), headerRanges, paths, rowsVars, SampleIdx(annoIndices), glob, eval).error
    {
      var sampleIdx := SampleIdx(annoIndices);
      var sheetRows, ranges := rows, headerRanges;
      ghost var sheets := Sheets(sheetRows, ranges);
      SheetsFit(sheetRows, ranges, sampleIdx);
      ghost var results := SheetResults(sheets, paths, rowsVars, sampleIdx, glob, eval);
      ghost var done: seq<seq<Row>> := [];
      var acc := [];
      for k := 0 to |ranges|
        modifies {}
        invariant |done| == k && acc == Flatten(done)
        invariant forall j :: 0 <= j < k ==> results[j] == Ok(done[j])
      {
        var part := ExpandSheet(sheetRows[ranges[k].start..ranges[k].end], paths, rowsVars, sampleIdx, glob, eval);
        if part.Err? {
          CollectFirstFailure(results, k);
          return Err(part.error);
        }
        OkPrefix(results, done, part.value);
        FlattenSnoc(done, part.value);
        done := done + [part.value];
        acc := acc + part.value;
      }
      CollectAllOk(results, done);
      rows := acc;
      return Ok(());
    }

    /** `generate_sfz_file` without the file: the SFZ text of the rows. */
    method GenerateSfz() returns (sfz: string)
      requires opcodeIndices.Valid()
      ensures sfz == SfzText(rows, opcodeIndices)
    {
      sfz := "";
      for i := 0 to |rows|
        invariant sfz + SfzText(rows[i..], opcodeIndices) == SfzText(rows, opcodeIndices)
      {
        var line := RowLine(rows[i], opcodeIndices);
        SfzStep(rows, i, opcodeIndices, sfz, line);
        sfz := sfz + line + "\n";
      }
      SfzTextEnd(rows, opcodeIndices);
    }
  }

  /** One more row written: the text so far plus the rest still adds up to the whole text. */
  lemma SfzStep(rows: seq<Row>, i: nat, opcodeIndices: OrderedMap<nat>, sfz: string, line: string)
    requires opcodeIndices.Valid() && i < |rows|
    requires sfz + SfzText(rows[i..], opcodeIndices) == SfzText(rows, opcodeIndices)
    requires line == Line(rows[i], opcodeIndices.keys, opcodeIndices.values)
    ensures (sfz + line + "\n") + SfzText(rows[i + 1..], opcodeIndices) == SfzText(rows, opcodeIndices)
  {
    SfzTextFrom(rows, i, opcodeIndices);
    LineAssoc(sfz, line, SfzText(rows[i + 1..], opcodeIndices));
  }

  lemma LineAssoc(sfz: string, line: string, rest: string)
    ensures (sfz + line + "\n") + rest == sfz + (line + "\n" + rest)
  {
  }

  lemma SfzTextEnd(rows: seq<Row>, opcodeIndices: OrderedMap<nat>)
    requires opcodeIndices.Valid()
    ensures SfzText(rows[|rows|..], opcodeIndices) == ""
  {
    assert rows[|rows|..] == [];
  }

  lemma SfzTextFrom(rows: seq<Row>, i: nat, opcodeIndices: OrderedMap<nat>)
    requires opcodeIndices.Valid() && i < |rows|
    ensures SfzText(rows[i..], opcodeIndices) == Line(rows[i], opcodeIndices.keys, opcodeIndices.values) + "\n" + SfzText(rows[i + 1..], opcodeIndices)
  {
    assert rows[i..][1..] == rows[i + 1..];
  }

  /** The entries of one row, key after key, as the inner loop of `generate_sfz_file` writes them. */
  method RowLine(row: Row, opcodeIndices: OrderedMap<nat>) returns (line: string)
    requires opcodeIndices.Valid()
    ensures line == Line(row, opcodeIndices.keys, opcodeIndices.values)
  {
    line := "";
    var keys := opcodeIndices.keys;
    for j := 0 to |keys|
      invariant line == Line(row, keys[..j], opcodeIndices.values)
    {
      var key := keys[j];
      var idx := opcodeIndices.values[key];
      var entry := "";
      if key != "" && idx < |row| && row[idx] != "" {
        if StartsWith(key, "__") {
          entry := row[idx] + " ";
        } else {
          entry := key + "=" + row[idx] + " ";
        }
      }
      LineStep(row, keys, j, opcodeIndices.values);
      line := line + entry;
    }
    assert keys[..|keys|] == keys;
  }

  /** `parse_sample_csv` on the records the CSV reader yields: the first record is the directive
      row; the data rows are the records after it that have its width. */
  method ParseSampleCsv(records: seq<Row>) returns (r: Result<SampleCsv, CsvError>)
    ensures records == [] <==> r == Err(NoOpcodeRow)
    ensures records != [] ==> (r.Err? <==> "header" !in RoleIndices(records[0]))
    ensures r.Err? ==> r.error == NoOpcodeRow || r.error == NoHeaderColumn
    ensures r.Ok? ==> fresh(r.value) && r.value.Valid()
    ensures r.Ok? ==> r.value.opcodeIndices == FromPairs(ColumnPairs(records[0]))
                      && r.value.annoIndices == RoleIndices(records[0])
                      && r.value.rows == SameWidth(records[1..], |records[0]|)
    ensures r.Ok? ==> Partition(r.value.headerRanges, |r.value.rows|)
                      && CutsExactly(r.value.headerRanges, r.value.rows, r.value.annoIndices["header"])
  {
    if records == [] {
      return Err(NoOpcodeRow);
    }
    var header := records[0];
    var opcodeIndices, annoIndices := CreateIndices(header);
    var rows := SameWidth(records[1..], |header|);
    if "header" !in annoIndices {
      return Err(NoHeaderColumn);
    }
    var headerIdx := annoIndices["header"];
    ColumnsInside(header, rows);
    var headerRanges := CreatHeaderRanges(rows, headerIdx);
    forall k | 0 <= k < |headerRanges| ensures headerRanges[k].start <= headerRanges[k].end <= |rows| {
      EndsWithin(headerRanges, |rows|, k);
    }
    var csv := new SampleCsv(opcodeIndices, annoIndices, headerRanges, rows);
    return Ok(csv);
  }

  /** Every role column of the directive row lies inside the rows of its width. */
  lemma ColumnsInside(header: seq<string>, rows: seq<Row>)
    requires forall k :: 0 <= k < |rows| ==> |rows[k]| == |header|
    ensures ColumnsFit(RoleIndices(header), rows)
  {
    forall role | role in RoleIndices(header) ensures RoleIndices(header)[role] < |header| {
      RoleIndicesLastWins(header, role);
    }
  }

  /** The rows of each range. */
  function Sheets(rows: seq<Row>, ranges: seq<Range>): (sheets: seq<seq<Row>>)
    requires RangesWithin(ranges, |rows|)
    ensures |sheets| == |ranges|
    ensures forall k :: 0 <= k < |ranges| ==> sheets[k] == rows[ranges[k].start..ranges[k].end]
  {
    seq(|ranges|, k requires 0 <= k < |ranges| && RangesWithin(ranges, |rows|) => rows[ranges[k].start..ranges[k].end])
  }

  lemma SheetsFit(rows: seq<Row>, ranges: seq<Range>, sampleIdx: Option<nat>)
    requires RangesWithin(ranges, |rows|)
    requires sampleIdx.Some? ==> Fits(rows, sampleIdx.value)
    ensures forall k :: 0 <= k < |ranges| && sampleIdx.Some? ==> Fits(Sheets(rows, ranges)[k], sampleIdx.value)
  {
    forall k, i | 0 <= k < |ranges| && sampleIdx.Some? && 0 <= i < |Sheets(rows, ranges)[k]|
      ensures sampleIdx.value < |Sheets(rows, ranges)[k][i]|
    {
      assert Sheets(rows, ranges)[k][i] == rows[ranges[k].start + i];
    }
  }

  /** Every sheet expanded on its own, in sheet order. */
  function SheetResults(sheets: seq<seq<Row>>, paths: seq<string>, rowsVars: map<string, Vars>, sampleIdx: Option<nat>, glob: Glob, eval: Evaluator)
    : (rs: seq<Result<seq<Row>, Failure>>)
    requires forall k :: 0 <= k < |sheets| && sampleIdx.Some? ==> Fits(sheets[k], sampleIdx.value)
    ensures |rs| == |sheets|
    ensures forall k :: 0 <= k < |sheets| ==> rs[k] == ExpandSheetSpec(sheets[k], paths, rowsVars, sampleIdx, glob, eval)
  {
    seq(|sheets|, k requires 0 <= k < |sheets| && (sampleIdx.Some? ==> Fits(sheets[k], sampleIdx.value)) =>
      ExpandSheetSpec(sheets[k], paths, rowsVars, sampleIdx, glob, eval))
  }

  /** The sheets glued back together. */
  function Flatten(parts: seq<seq<Row>>): seq<Row> {
    if parts == [] then [] else Flatten(parts[..|parts| - 1]) + parts[|parts| - 1]
  }

  lemma FlattenSnoc(parts: seq<seq<Row>>, p: seq<Row>)
    ensures Flatten(parts + [p]) == Flatten(parts) + p
  {
    assert (parts + [p])[..|parts|] == parts;
  }

  /** The expansion of all sheets, or the failure of a failing sheet (the model takes the first). */
  function ExpandSheets(rows: seq<Row>, ranges: seq<Range>, paths: seq<string>, rowsVars: map<string, Vars>, sampleIdx: Option<nat>, glob: Glob, eval: Evaluator)
    : Result<seq<Row>, Failure>
    requires RangesWithin(ranges, |rows|)
    requires sampleIdx.Some? ==> Fits(rows, sampleIdx.value)
  {
    SheetsFit(rows, ranges, sampleIdx);
    var c := Collect(SheetResults(Sheets(rows, ranges), paths, rowsVars, sampleIdx, glob, eval));
    if c.Err? then Err(c.error) else Ok(Flatten(c.value))
  }

  /** The sheets of a partition glue back to the rows. */
  lemma {:induction false} FlattenSheets(rows: seq<Row>, ranges: seq<Range>)
    requires RangesWithin(ranges, |rows|)
    ensures Flatten(Sheets(rows, ranges)) == Concat(rows, ranges)
  {
    if ranges != [] {
      var n := |ranges| - 1;
      FlattenSheets(rows, ranges[..n]);
      assert Sheets(rows, ranges)[..n] == Sheets(rows, ranges[..n]);
    }
  }

  /** When every sheet passes through unchanged, expansion gives back the rows of the
      sheets, in order; for ranges that partition the rows, the rows themselves. */
  lemma SheetsPassThrough(rows: seq<Row>, ranges: seq<Range>, paths: seq<string>, rowsVars: map<string, Vars>, sampleIdx: Option<nat>, glob: Glob, eval: Evaluator)
    requires Partition(ranges, |rows|) && RangesWithin(ranges, |rows|)
    requires sampleIdx.Some? ==> Fits(rows, sampleIdx.value)
    requires forall k :: 0 <= k < |ranges| && sampleIdx.Some? ==> Fits(rows[ranges[k].start..ranges[k].end], sampleIdx.value)
    requires forall k :: 0 <= k < |ranges| ==>
               ExpandSheetSpec(rows[ranges[k].start..ranges[k].end], paths, rowsVars, sampleIdx, glob, eval) == Ok(rows[ranges[k].start..ranges[k].end])
    ensures ExpandSheets(rows, ranges, paths, rowsVars, sampleIdx, glob, eval) == Ok(rows)
  {
    var sheets := Sheets(rows, ranges);
    SheetsFit(rows, ranges, sampleIdx);
    var results := SheetResults(sheets, paths, rowsVars, sampleIdx, glob, eval);
    CollectAllOk(results, sheets);
    FlattenSheets(rows, ranges);
    ConcatPartition(rows, ranges);
  }

  /** Without a sample column every sheet of a partition is kept as it is. */
  lemma NoSampleColumn(rows: seq<Row>, ranges: seq<Range>, paths: seq<string>, rowsVars: map<string, Vars>, glob: Glob, eval: Evaluator)
    requires Partition(ranges, |rows|) && RangesWithin(ranges, |rows|)
    ensures ExpandSheets(rows, ranges, paths, rowsVars, None, glob, eval) == Ok(rows)
  {
    SheetsPassThrough(rows, ranges, paths, rowsVars, None, glob, eval);
  }

  /** The text a column of a row contributes: nothing for an unnamed column, a missing or an
      empty cell; the bare value for a key starting with `__`; `key=value` otherwise. */
  function Entry(key: string, idx: nat, row: Row): string {
    if key == "" || idx >= |row| || row[idx] == "" then ""
    else if StartsWith(key, "__") then row[idx] + " "
    else key + "=" + row[idx] + " "
  }

  /** The SFZ line of a row: the entries of the keys in key order. */
  function Line(row: Row, keys: seq<string>, indices: map<string, nat>): (r: string)
    requires forall k :: k in keys ==> k in indices
    ensures r == "" <==> forall j :: 0 <= j < |keys| ==> Entry(keys[j], indices[keys[j]], row) == ""
    ensures r != "" ==> r[|r| - 1] == ' '
  {
    if keys == [] then ""
    else
      var n := |keys| - 1;
      LineEmptyStep(row, keys, keys[..n], indices);
      EntryEnd(keys[n], indices[keys[n]], row);
      Line(row, keys[..n], indices) + Entry(keys[n], indices[keys[n]], row)
  }

  lemma LineEmptyStep(row: Row, keys: seq<string>, init: seq<string>, indices: map<string, nat>)
    requires forall k :: k in keys ==> k in indices
    requires keys != [] && init == keys[..|keys| - 1]
    ensures (forall j :: 0 <= j < |keys| ==> Entry(keys[j], indices[keys[j]], row) == "") <==>
            (forall j :: 0 <= j < |init| ==> Entry(init[j], indices[init[j]], row) == "")
              && Entry(keys[|init|], indices[keys[|init|]], row) == ""
  {
    assert forall j :: 0 <= j < |init| ==> init[j] == keys[j];
  }

  /** An entry that writes something ends with a blank. */
  lemma EntryEnd(key: string, idx: nat, row: Row)
    ensures Entry(key, idx, row) != "" ==> Entry(key, idx, row)[|Entry(key, idx, row)| - 1] == ' '
  {
  }

  lemma LineStep(row: Row, keys: seq<string>, j: nat, indices: map<string, nat>)
    requires forall k :: k in keys ==> k in indices
    requires j < |keys|
    ensures Line(row, keys[..j + 1], indices) == Line(row, keys[..j], indices) + Entry(keys[j], indices[keys[j]], row)
  {
    assert keys[..j + 1][..j] == keys[..j];
  }

  /** The SFZ text of the rows: one line per row, each ended by a line feed. */
  function SfzText(rows: seq<Row>, opcodeIndices: OrderedMap<nat>): (text: string)
    requires opcodeIndices.Valid()
    ensures text == "" <==> rows == []
    ensures rows != [] ==> text[|text| - 1] == '\n'
  {
    if rows == [] then ""
    else Line(rows[0], opcodeIndices.keys, opcodeIndices.values) + "\n" + SfzText(rows[1..], opcodeIndices)
  }

  /** The text of concatenated rows is the concatenation of their texts. */
  lemma {:induction false} SfzTextAppend(a: seq<Row>, b: seq<Row>, opcodeIndices: OrderedMap<nat>)
    requires opcodeIndices.Valid()
    ensures SfzText(a + b, opcodeIndices) == SfzText(a, opcodeIndices) + SfzText(b, opcodeIndices)
  {
    if a != [] {
      assert (a + b)[0] == a[0] && (a + b)[1..] == a[1..] + b;
      SfzTextAppend(a[1..], b, opcodeIndices);
      var head := Line(a[0], opcodeIndices.keys, opcodeIndices.values) + "\n";
      assert SfzText(a + b, opcodeIndices) == head + SfzText(a[1..] + b, opcodeIndices);
      assert SfzText(a, opcodeIndices) == head + SfzText(a[1..], opcodeIndices);
      TextAssoc(head, SfzText(a[1..], opcodeIndices), SfzText(b, opcodeIndices));
    } else {
      assert a + b == b;
    }
  }

  lemma TextAssoc(x: string, y: string, z: string)
    ensures x + (y + z) == (x + y) + z
  {
  }

  /** The lines of the rows. */
  function Lines(rows: seq<Row>, opcodeIndices: OrderedMap<nat>): (ls: seq<string>)
    requires opcodeIndices.Valid()
    ensures |ls| == |rows|
    ensures forall k :: 0 <= k < |rows| ==> ls[k] == Line(rows[k], opcodeIndices.keys, opcodeIndices.values)
  {
    seq(|rows|, k requires 0 <= k < |rows| && opcodeIndices.Valid() => Line(rows[k], opcodeIndices.keys, opcodeIndices.values))
  }

  /** The text is the lines joined by line feeds, with a final line feed. */
  lemma {:induction false} SfzTextJoin(rows: seq<Row>, opcodeIndices: OrderedMap<nat>)
    requires opcodeIndices.Valid()
    ensures SfzText(rows, opcodeIndices) == Join(Lines(rows, opcodeIndices) + [""], '\n')
  {
    if rows != [] {
      SfzTextJoin(rows[1..], opcodeIndices);
      var ls := Lines(rows, opcodeIndices) + [""];
      assert ls[1..] == Lines(rows[1..], opcodeIndices) + [""];
    }
  }

  /** A line holds no line feed when neither the keys nor the cells do. */
  lemma {:induction false} LineWithoutFeed(row: Row, keys: seq<string>, indices: map<string, nat>)
    requires forall k :: k in keys ==> k in indices
    requires forall k :: k in keys ==> '\n' !in k
    requires forall i :: 0 <= i < |row| ==> '\n' !in row[i]
    ensures '\n' !in Line(row, keys, indices)
  {
    if keys != [] {
      var n := |keys| - 1;
      assert forall k :: k in keys[..n] ==> k in keys;
      LineWithoutFeed(row, keys[..n], indices);
      assert keys[n] in keys;
      assert '\n' !in Entry(keys[n], indices[keys[n]], row);
    }
  }

  /** Reading the text back line by line gives, for each row, its line: one line per row, in
      row order, followed by the empty remainder after the last line feed. */
  lemma SfzReadBack(rows: seq<Row>, opcodeIndices: OrderedMap<nat>)
    requires opcodeIndices.Valid()
    requires forall k :: k in opcodeIndices.keys ==> '\n' !in k
    requires forall r, i :: r in rows && 0 <= i < |r| ==> '\n' !in r[i]
    ensures Split(SfzText(rows, opcodeIndices), '\n') == Lines(rows, opcodeIndices) + [""]
  {
    var ls := Lines(rows, opcodeIndices) + [""];
    forall k | 0 <= k < |ls| ensures '\n' !in ls[k] {
      if k < |rows| {
        LineWithoutFeed(rows[k], opcodeIndices.keys, opcodeIndices.values);
      }
    }
    SfzTextJoin(rows, opcodeIndices);
    SplitJoin(ls, '\n');
  }
}
