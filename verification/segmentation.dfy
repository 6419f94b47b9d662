/** Sheet segmentation: the data rows cut into contiguous half-open ranges, a new range
    starting wherever the `@header` column is filled (`creat_header_ranges`). */
module Segmentation {

  /** A half-open range of row indices, `start..end`. */
  datatype Range = Range(start: nat, end: nat)

  /** Row `i` opens a new sheet: it is not the first row and its header cell is non-empty. */
  predicate Cut(rows: seq<seq<string>>, headerIdx: nat, i: nat) {
    1 <= i < |rows| && headerIdx < |rows[i]| && rows[i][headerIdx] != ""
  }

  /** The ranges cover `0..n` in order, without gaps or overlap, and none is empty. */
  predicate Partition(ranges: seq<Range>, n: nat) {
    && (ranges == [] <==> n == 0)
    && (ranges != [] ==> ranges[0].start == 0 && ranges[|ranges| - 1].end == n)
    && (forall k :: 0 <= k < |ranges| ==> ranges[k].start < ranges[k].end)
    && (forall k :: 0 < k < |ranges| ==> ranges[k - 1].end == ranges[k].start)
  }

  /** Every range after the first starts at a cut, and no cut falls inside a range. */
  predicate CutsExactly(ranges: seq<Range>, rows: seq<seq<string>>, headerIdx: nat) {
    && (forall k :: 0 < k < |ranges| ==> Cut(rows, headerIdx, ranges[k].start))
    && (forall k, i :: 0 <= k < |ranges| && ranges[k].start < i < ranges[k].end ==> !Cut(rows, headerIdx, i))
  }

  /** Closing the open sheet `start..i` keeps the ranges a partition cut at the filled cells. */
  lemma CloseRange(ranges: seq<Range>, rows: seq<seq<string>>, headerIdx: nat, start: nat, i: nat)
    requires Partition(ranges, start) && CutsExactly(ranges, rows, headerIdx)
    requires ranges != [] ==> Cut(rows, headerIdx, start)
    requires start < i
    requires forall j :: start < j < i ==> !Cut(rows, headerIdx, j)
    ensures Partition(ranges + [Range(start, i)], i)
    ensures CutsExactly(ranges + [Range(start, i)], rows, headerIdx)
  {
    var r := ranges + [Range(start, i)];
    forall k | 0 < k < |r| ensures r[k - 1].end == r[k].start {
      if k < |ranges| { assert r[k - 1] == ranges[k - 1] && r[k] == ranges[k]; }
    }
    forall k | 0 < k < |r| ensures Cut(rows, headerIdx, r[k].start) {
      if k < |ranges| { assert r[k] == ranges[k]; }
    }
    forall k, j | 0 <= k < |r| && r[k].start < j < r[k].end ensures !Cut(rows, headerIdx, j) {
      if k < |ranges| { assert r[k] == ranges[k]; }
    }
  }

  /** `creat_header_ranges`. */
  method CreatHeaderRanges(rows: seq<seq<string>>, headerIdx: nat) returns (ranges: seq<Range>)
    requires forall i :: 1 <= i < |rows| ==> headerIdx < |rows[i]|
    ensures Partition(ranges, |rows|)
    ensures CutsExactly(ranges, rows, headerIdx)
  {
    ranges := [];
    var start := 0;
    var i := 1;
    while i < |rows|
      invariant 1 <= i && (rows != [] ==> i <= |rows|)
      invariant start < i
      invariant rows == [] ==> ranges == [] && start == 0
      invariant Partition(ranges, start)
      invariant CutsExactly(ranges, rows, headerIdx)
      invariant ranges != [] ==> Cut(rows, headerIdx, start)
      invariant forall j :: start < j < i ==> !Cut(rows, headerIdx, j)
    {
      if rows[i][headerIdx] != "" {
        CloseRange(ranges, rows, headerIdx, start, i);
        ranges := ranges + [Range(start, i)];
        start := i;
      }
      i := i + 1;
    }
    if rows != [] {
      CloseRange(ranges, rows, headerIdx, start, |rows|);
      ranges := ranges + [Range(start, |rows|)];
    }
  }

  /** Two range lists that both partition the rows and both cut exactly at the filled header
      cells are the same list: the two properties determine the segmentation. */
  lemma PartitionUnique(r1: seq<Range>, r2: seq<Range>, rows: seq<seq<string>>, headerIdx: nat)
    requires Partition(r1, |rows|) && CutsExactly(r1, rows, headerIdx)
    requires Partition(r2, |rows|) && CutsExactly(r2, rows, headerIdx)
    ensures r1 == r2
  {
    var k := 0;
    while k < |r1| && k < |r2|
      invariant k <= |r1| && k <= |r2|
      invariant r1[..k] == r2[..k]
      invariant k < |r1| && k < |r2| ==> r1[k].start == r2[k].start
      invariant 0 < k ==> r1[k - 1].end == r2[k - 1].end
    {
      SameStartSameRange(r1, r2, rows, headerIdx, k);
      PrefixExtend(r1, r2, k);
      k := k + 1;
    }
    if k > 0 {
      OnlyLastEndsAtN(r1, |rows|, k);
      OnlyLastEndsAtN(r2, |rows|, k);
    }
    SamePrefixWhole(r1, r2, k);
  }

  lemma PrefixExtend(r1: seq<Range>, r2: seq<Range>, k: nat)
    requires k < |r1| && k < |r2| && r1[..k] == r2[..k] && r1[k] == r2[k]
    ensures r1[..k + 1] == r2[..k + 1]
  {
    assert r1[..k + 1] == r1[..k] + [r1[k]];
    assert r2[..k + 1] == r2[..k] + [r2[k]];
  }

  lemma SamePrefixWhole(r1: seq<Range>, r2: seq<Range>, k: nat)
    requires k == |r1| == |r2| && r1[..k] == r2[..k]
    ensures r1 == r2
  {
    assert r1 == r1[..k] && r2 == r2[..k];
  }

  /** In a partition of `0..n` only the last range reaches `n`. */
  lemma OnlyLastEndsAtN(r: seq<Range>, n: nat, k: nat)
    requires Partition(r, n) && 0 < k <= |r|
    ensures k == |r| <==> r[k - 1].end == n
  {
    if k < |r| {
      EndsWithin(r, n, k);
    }
  }

  /** Two exact segmentations whose `k`-th ranges start together also end together. */
  lemma SameStartSameRange(r1: seq<Range>, r2: seq<Range>, rows: seq<seq<string>>, headerIdx: nat, k: nat)
    requires Partition(r1, |rows|) && CutsExactly(r1, rows, headerIdx)
    requires Partition(r2, |rows|) && CutsExactly(r2, rows, headerIdx)
    requires k < |r1| && k < |r2| && r1[k].start == r2[k].start
    ensures r1[k] == r2[k]
    ensures k + 1 < |r1| && k + 1 < |r2| ==> r1[k + 1].start == r2[k + 1].start
  {
    var n := |rows|;
    var e1, e2 := r1[k].end, r2[k].end;
    assert e1 == n || Cut(rows, headerIdx, e1) by {
      if k + 1 < |r1| { assert r1[k + 1].start == e1; }
    }
    assert e2 == n || Cut(rows, headerIdx, e2) by {
      if k + 1 < |r2| { assert r2[k + 1].start == e2; }
    }
    EndsWithin(r1, n, k);
    EndsWithin(r2, n, k);
  }

  /** In a partition of `0..n` every range ends within `n`. */
  lemma EndsWithin(ranges: seq<Range>, n: nat, k: nat)
    requires Partition(ranges, n) && k < |ranges|
    ensures ranges[k].end <= n
    decreases |ranges| - k
  {
    if k + 1 < |ranges| {
      EndsWithin(ranges, n, k + 1);
      assert ranges[k].end == ranges[k + 1].start;
    }
  }

  /** The rows a list of ranges selects, range after range. */
  function Concat(rows: seq<seq<string>>, ranges: seq<Range>): seq<seq<string>>
    requires forall k :: 0 <= k < |ranges| ==> ranges[k].start <= ranges[k].end <= |rows|
  {
    if ranges == [] then []
    else Concat(rows, ranges[..|ranges| - 1]) + rows[ranges[|ranges| - 1].start..ranges[|ranges| - 1].end]
  }

  /** Concatenating the sheets gives back the data rows, in their original order. */
  lemma {:induction false} ConcatPartition(rows: seq<seq<string>>, ranges: seq<Range>)
    requires Partition(ranges, |rows|)
    ensures forall k :: 0 <= k < |ranges| ==> ranges[k].start <= ranges[k].end <= |rows|
    ensures Concat(rows, ranges) == rows
  {
    forall k | 0 <= k < |ranges| ensures ranges[k].start <= ranges[k].end <= |rows| {
      EndsWithin(ranges, |rows|, k);
    }
    if ranges != [] {
      ConcatPrefix(rows, ranges, |ranges|);
      assert ranges[..|ranges|] == ranges;
      assert rows[..|rows|] == rows;
    }
  }

  lemma {:induction false} ConcatPrefix(rows: seq<seq<string>>, ranges: seq<Range>, m: nat)
    requires Partition(ranges, |rows|) && 1 <= m <= |ranges|
    requires forall k :: 0 <= k < |ranges| ==> ranges[k].start <= ranges[k].end <= |rows|
    ensures Concat(rows, ranges[..m]) == rows[..ranges[m - 1].end]
  {
    var last := ranges[m - 1];
    assert ranges[..m][..m - 1] == ranges[..m - 1];
    if m == 1 {
      assert Concat(rows, ranges[..0]) == [];
      assert last.start == 0;
    } else {
      ConcatPrefix(rows, ranges, m - 1);
      assert ranges[m - 2].end == last.start;
    }
    assert rows[..last.end] == rows[..last.start] + rows[last.start..last.end];
  }

  /** The rows of the unit test for `creat_header_ranges`: the header column (0) is filled only
      in the third row, so the only admissible segmentation is `[0..2, 2..3]`. */
  lemma HeaderRangesExample(ranges: seq<Range>)
    requires Partition(ranges, 3)
    requires CutsExactly(ranges, [["", "b"], ["", "d"], ["c", "d"]], 0)
    ensures ranges == [Range(0, 2), Range(2, 3)]
  {
    var rows := [["", "b"], ["", "d"], ["c", "d"]];
    var expected := [Range(0, 2), Range(2, 3)];
    assert !Cut(rows, 0, 1) && Cut(rows, 0, 2);
    assert CutsExactly(expected, rows, 0) by {
      forall k, i | 0 <= k < 2 && expected[k].start < i < expected[k].end
        ensures !Cut(rows, 0, i)
      {
        assert k == 0 && i == 1;
      }
    }
    PartitionUnique(ranges, expected, rows, 0);
  }
}
