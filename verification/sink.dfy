/** The aggregation sink: aligns every record to the canonical columns, drops
    records whose permalink occurred earlier, and reports how many were dropped. */
module Sink {
  import opened Wrappers
  import opened Schema
  import opened Normalize
  import opened Dedup
  import opened Collect

  /** A record's cell for column `c`; a column the record lacks reads as `Null`. */
  function Lookup(d: Dict, c: string): Value
  {
    if c in d then d[c] else Null
  }

  /** The record projected onto the canonical columns: a missing column becomes
      `Null` and a column outside the schema is dropped. */
  function Align(d: Dict): (r: seq<Value>)
    ensures |r| == |Columns|
    ensures forall i :: 0 <= i < |Columns| && Columns[i] !in d ==> r[i] == Null
    ensures forall i :: 0 <= i < |Columns| && Columns[i] in d ==> r[i] == d[Columns[i]]
  {
    seq(|Columns|, i requires 0 <= i < |Columns| => Lookup(d, Columns[i]))
  }

  /** The deduplication key of an aligned row. */
  function PermalinkKey(cells: seq<Value>): Value
  {
    if PermalinkColumn < |cells| then cells[PermalinkColumn] else Null
  }

  /** Every record aligned, in input order. */
  function AlignAll(rows: seq<Dict>): (t: seq<seq<Value>>)
    ensures |t| == |rows|
    ensures forall i :: 0 <= i < |rows| ==> t[i] == Align(rows[i])
  {
    seq(|rows|, i requires 0 <= i < |rows| => Align(rows[i]))
  }

  /** Reference definition of the sink's output table. */
  function CleanTable(rows: seq<Dict>): seq<seq<Value>>
  {
    DropDuplicates(AlignAll(rows), PermalinkKey)
  }

  /** The permalink of an input record, as the aligned table holds it. */
  lemma PermalinkKeyOfAligned(d: Dict)
    ensures PermalinkKey(Align(d)) == Lookup(d, "permalink")
  {
    ColumnsWellFormed();
  }

  /** The logic of saving the clean table: align, drop rows with a repeated
      permalink keeping the first, and count what was removed. */
  method SaveCleanCsv(rows: seq<Dict>) returns (table: seq<seq<Value>>, removed: nat)
    ensures table == CleanTable(rows)
    ensures forall k :: 0 <= k < |table| ==> |table[k]| == |Columns|
    ensures UniqueKeys(table, PermalinkKey)
    ensures forall i :: 0 <= i < |rows| ==> Lookup(rows[i], "permalink") in KeySet(table, PermalinkKey)
    ensures removed == |rows| - |table|
    ensures removed == |rows| - |KeySet(AlignAll(rows), PermalinkKey)|
  {
    var aligned: seq<seq<Value>> := [];
    var i := 0;
    while i < |rows|
      invariant 0 <= i <= |rows|
      invariant aligned == AlignAll(rows[..i])
    {
      aligned := aligned + [Align(rows[i])];
      i := i + 1;
    }
    assert rows[..i] == rows;
    table := DropDuplicatesBySeen(aligned, PermalinkKey);
    DropDuplicatesUniqueKeys(aligned, PermalinkKey);
    DropDuplicatesCount(aligned, PermalinkKey);
    DropDuplicatesKeySet(aligned, PermalinkKey);
    DropDuplicatesSelectsFirstOccurrences(aligned, PermalinkKey);
    forall k | 0 <= k < |table|
      ensures |table[k]| == |Columns|
    {
      var idx :| SelectedAt(aligned, table, idx);
      assert table[k] == aligned[idx[k]];
    }
    forall i | 0 <= i < |rows|
      ensures Lookup(rows[i], "permalink") in KeySet(table, PermalinkKey)
    {
      PermalinkKeyOfAligned(rows[i]);
      KeySetMembership(aligned, PermalinkKey, PermalinkKey(aligned[i]));
    }
    removed := |rows| - |table|;
  }

  /** Aligning the dictionary form of a normalised row gives back its cells:
      the normaliser's output already has exactly the canonical columns. */
  lemma AlignRowDict(row: Row)
    ensures Align(ToDict(row)) == Cells(row)
  {
    ToDictMatchesCells(row);
  }

  /** Records that agree on the canonical columns align identically: extra
      columns play no part. */
  lemma AlignIgnoresExtraColumns(d1: Dict, d2: Dict)
    requires forall c :: c in Columns ==> Lookup(d1, c) == Lookup(d2, c)
    ensures Align(d1) == Align(d2)
  {
    var r1, r2 := Align(d1), Align(d2);
    forall i | 0 <= i < |Columns|
      ensures r1[i] == r2[i]
    {
      assert Columns[i] in Columns;
    }
  }

  /** The dictionaries the normaliser returns, ready for the sink. */
  function RowDicts(rows: seq<Row>): (ds: seq<Dict>)
    ensures |ds| == |rows|
    ensures forall i :: 0 <= i < |rows| ==> ds[i] == ToDict(rows[i])
  {
    seq(|rows|, i requires 0 <= i < |rows| => ToDict(rows[i]))
  }

  /** The clean table of three rows where the third repeats the first one's
      permalink and the second differs: the first two rows, in order. */
  lemma ThirdRowDropped(r1: Row, r2: Row, r3: Row)
    requires r1.permalink == r3.permalink && r1.permalink != r2.permalink
    ensures CleanTable(RowDicts([r1, r2, r3])) == [Cells(r1), Cells(r2)]
  {
    var ds := RowDicts([r1, r2, r3]);
    var aligned := AlignAll(ds);
    assert aligned[0] == Cells(r1) by {
      assert ds[0] == ToDict(r1);
      AlignRowDict(r1);
    }
    assert aligned[1] == Cells(r2) by {
      assert ds[1] == ToDict(r2);
      AlignRowDict(r2);
    }
    assert aligned[2] == Cells(r3) by {
      assert ds[2] == ToDict(r3);
      AlignRowDict(r3);
    }
    ColumnsWellFormed();
    DropDuplicatesThree(aligned, PermalinkKey);
  }

  /** Two subreddits: the first yields two posts, the second one post repeating
      the first post's permalink. The clean table keeps two rows, the first
      subreddit's, and one duplicate is reported removed. */
  lemma EndToEndScenario(s1: Submission, s2: Submission, s3: Submission, p1: string, p2: string, parse: UrlParser)
    requires s1.permalink == Given(p1) && s2.permalink == Given(p2) && s3.permalink == Given(p1)
    requires p1 != p2
    ensures var rows := Gathered([Visit("alpha", Ok([s1, s2])), Visit("beta", Ok([s3]))], None, parse);
            var table := CleanTable(RowDicts(rows));
            && |rows| == 3
            && table == [Cells(rows[0]), Cells(rows[1])]
            && |rows| - |table| == 1
  {
    var v := [Visit("alpha", Ok([s1, s2])), Visit("beta", Ok([s3]))];
    assert v[..1][..0] == [];
    assert AllYielded(v[..1]) == [s1, s2];
    assert AllYielded(v) == [s1, s2, s3] by {
      assert v[..|v| - 1] == v[..1];
    }
    var rows := Gathered(v, None, parse);
    assert rows == [rows[0], rows[1], rows[2]];
    PermalinkInjective(s1, s2, None, None, parse);
    PermalinkInjective(s1, s3, None, None, parse);
    ThirdRowDropped(rows[0], rows[1], rows[2]);
  }
}
