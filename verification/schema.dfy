/** The fixed output schema of the pipeline: the fourteen canonical columns,
    the dynamically typed cell values a table holds, and the typed row that the
    normaliser produces. */
module Schema {
  import opened Wrappers

  /** The canonical column names, in output order. */
  const Columns: seq<string> := [
    "title", "score", "upvote_ratio", "num_comments", "author", "subreddit", "url",
    "permalink", "created_utc", "is_self", "selftext", "flair", "domain", "search_query"
  ]

  /** Position of the deduplication key among the columns. */
  const PermalinkColumn: nat := 7

  /** A floating-point vote ratio, carried through untouched; the model does no
      arithmetic on it. */
  datatype Ratio = Ratio(bits: int)

  /** A cell of the table. `Null` stands for Python's `None` and pandas' `NaN`. */
  datatype Value = Null | Str(s: string) | Int(i: int) | Bool(b: bool) | Frac(ratio: Ratio)

  /** One normalised row, one field per canonical column. */
  datatype Row = Row(
    title: Option<string>,
    score: Option<int>,
    upvoteRatio: Option<Ratio>,
    numComments: Option<int>,
    author: Option<string>,
    subreddit: string,
    url: Option<string>,
    permalink: string,
    createdUtc: Option<int>,
    isSelf: Option<bool>,
    selftext: Option<string>,
    flair: Option<string>,
    domain: Option<string>,
    searchQuery: Option<string>)

  /** A record as a dictionary from column name to cell. */
  type Dict = map<string, Value>

  function StrCell(o: Option<string>): Value {
    match o
    case None => Null
    case Some(s) => Str(s)
  }

  function IntCell(o: Option<int>): Value {
    match o
    case None => Null
    case Some(n) => Int(n)
  }

  function BoolCell(o: Option<bool>): Value {
    match o
    case None => Null
    case Some(b) => Bool(b)
  }

  function RatioCell(o: Option<Ratio>): Value {
    match o
    case None => Null
    case Some(q) => Frac(q)
  }

  /** The row's cells, listed in canonical column order. */
  function Cells(row: Row): (c: seq<Value>)
    ensures |c| == |Columns|
    ensures c[PermalinkColumn] == Str(row.permalink)
  {
    [StrCell(row.title), IntCell(row.score), RatioCell(row.upvoteRatio), IntCell(row.numComments),
     StrCell(row.author), Str(row.subreddit), StrCell(row.url), Str(row.permalink),
     IntCell(row.createdUtc), BoolCell(row.isSelf), StrCell(row.selftext), StrCell(row.flair),
     StrCell(row.domain), StrCell(row.searchQuery)]
  }

  /** The row as the dictionary the normaliser returns: each canonical column
      mapped to the row's cell for it. */
  function ToDict(row: Row): Dict {
    ColumnsWellFormed();
    map i | 0 <= i < |Columns| :: Columns[i] := Cells(row)[i]
  }

  /** The column list has fourteen distinct names and the key column is `permalink`. */
  lemma ColumnsWellFormed()
    ensures |Columns| == 14
    ensures Columns[PermalinkColumn] == "permalink"
    ensures forall i, j :: 0 <= i < j < |Columns| ==> Columns[i] != Columns[j]
  {
  }

  /** The dictionary form of a row has exactly the canonical keys, and the
      value under each column is the row's cell for that column. */
  lemma ToDictMatchesCells(row: Row)
    ensures ToDict(row).Keys == set c | c in Columns
    ensures forall i :: 0 <= i < |Columns| ==> ToDict(row)[Columns[i]] == Cells(row)[i]
  {
    var d := ToDict(row);
    forall i | 0 <= i < |Columns|
      ensures Columns[i] in d && d[Columns[i]] == Cells(row)[i]
    {
      ColumnsWellFormed();
    }
  }
}
