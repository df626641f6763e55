/** The collection runner: walks the subreddits in order and normalises every
    item the source yields, isolating a failure to the subreddit it happens in. */
module Collect {
  import opened Wrappers
  import opened Schema
  import opened Normalize

  /** What the source did on one subreddit: yielded all its items, or yielded
      some items and then raised. */
  datatype Outcome = Ok(items: seq<Submission>) | Fail(yieldedBeforeError: seq<Submission>)

  /** One visit of the runner: the subreddit asked and what the source did. */
  datatype Visit = Visit(subreddit: string, outcome: Outcome)

  /** The items the runner saw before the visit ended, normally or not. The
      `try` wraps the whole inner loop, so items seen before an error are kept. */
  function Yielded(o: Outcome): (items: seq<Submission>)
    ensures o.Ok? ==> items == o.items
    ensures o.Fail? ==> items == o.yieldedBeforeError
  {
    match o
    case Ok(items) => items
    case Fail(before) => before
  }

  /** The items of all visits, one subreddit after the other. */
  function AllYielded(visits: seq<Visit>): seq<Submission>
  {
    if |visits| == 0 then []
    else AllYielded(visits[..|visits| - 1]) + Yielded(visits[|visits| - 1].outcome)
  }

  /** The normalised rows of `items`, in source order. */
  function RowsOf(items: seq<Submission>, query: Option<string>, parse: UrlParser): (rows: seq<Row>)
    ensures |rows| == |items|
    ensures forall i :: 0 <= i < |items| ==> rows[i] == SubmissionToRow(items[i], query, parse)
  {
    seq(|items|, i requires 0 <= i < |items| => SubmissionToRow(items[i], query, parse))
  }

  /** Reference definition of a pass: the rows of every item of every visit. */
  function Gathered(visits: seq<Visit>, query: Option<string>, parse: UrlParser): seq<Row>
  {
    RowsOf(AllYielded(visits), query, parse)
  }

  /** The source honoured the per-subreddit limit on every visit. */
  predicate WithinLimit(visits: seq<Visit>, limitPerSub: nat)
  {
    forall i :: 0 <= i < |visits| ==> |Yielded(visits[i].outcome)| <= limitPerSub
  }

  /** Normalising a concatenation normalises each part. */
  lemma RowsOfAppend(x: seq<Submission>, y: seq<Submission>, query: Option<string>, parse: UrlParser)
    ensures RowsOf(x + y, query, parse) == RowsOf(x, query, parse) + RowsOf(y, query, parse)
  {
    var l, r := RowsOf(x + y, query, parse), RowsOf(x, query, parse) + RowsOf(y, query, parse);
    forall i | 0 <= i < |l|
      ensures l[i] == r[i]
    {
      if i < |x| {
        assert (x + y)[i] == x[i];
      } else {
        assert (x + y)[i] == y[i - |x|];
      }
    }
  }

  /** Visiting one more subreddit appends its items. */
  lemma AllYieldedStep(visits: seq<Visit>, i: nat)
    requires i < |visits|
    ensures AllYielded(visits[..i + 1]) == AllYielded(visits[..i]) + Yielded(visits[i].outcome)
  {
    assert visits[..i + 1][..i] == visits[..i];
  }

  /** The inner loop of the runner: appends one row per item to `rows`, counting them. */
  method AppendRows(rows: seq<Row>, total: nat, items: seq<Submission>, query: Option<string>, parse: UrlParser)
    returns (rows': seq<Row>, total': nat)
    requires total == |rows|
    ensures rows' == rows + RowsOf(items, query, parse)
    ensures total' == |rows'|
  {
    rows', total' := rows, total;
    var j := 0;
    while j < |items|
      invariant 0 <= j <= |items|
      invariant rows' == rows + RowsOf(items[..j], query, parse)
      invariant total' == |rows'|
    {
      assert items[..j + 1] == items[..j] + [items[j]];
      RowsOfAppend(items[..j], [items[j]], query, parse);
      rows' := rows' + [SubmissionToRow(items[j], query, parse)];
      total' := total' + 1;
      j := j + 1;
    }
    assert items[..j] == items;
  }

  /** The runner shared by both collectors: returns the rows and the running total. */
  method CollectPosts(visits: seq<Visit>, query: Option<string>, parse: UrlParser)
    returns (rows: seq<Row>, total: nat)
    ensures rows == Gathered(visits, query, parse)
    ensures total == |rows|
  {
    rows := [];
    total := 0;
    var i := 0;
    while i < |visits|
      invariant 0 <= i <= |visits|
      invariant rows == Gathered(visits[..i], query, parse)
      invariant total == |rows|
    {
      rows, total := AppendRows(rows, total, Yielded(visits[i].outcome), query, parse);
      AllYieldedStep(visits, i);
      RowsOfAppend(AllYielded(visits[..i]), Yielded(visits[i].outcome), query, parse);
      i := i + 1;
    }
    assert visits[..|visits|] == visits;
  }

  /** Collects the hot listing of every subreddit: one row per yielded item,
      none of them carrying a search query. */
  method CollectHotPosts(visits: seq<Visit>, limitPerSub: nat, parse: UrlParser)
    returns (rows: seq<Row>, total: nat)
    ensures rows == Gathered(visits, None, parse)
    ensures total == |rows| == |AllYielded(visits)|
    ensures forall r :: r in rows ==> r.searchQuery.None?
    ensures WithinLimit(visits, limitPerSub) ==> total <= limitPerSub * |visits|
  {
    rows, total := CollectPosts(visits, None, parse);
    if WithinLimit(visits, limitPerSub) {
      YieldedWithinLimit(visits, limitPerSub);
    }
  }

  /** Collects the search results for `query` in every subreddit: one row per
      yielded item, every one carrying the query. */
  method CollectSearchPosts(visits: seq<Visit>, query: string, limitPerSub: nat, parse: UrlParser)
    returns (rows: seq<Row>, total: nat)
    ensures rows == Gathered(visits, Some(query), parse)
    ensures total == |rows| == |AllYielded(visits)|
    ensures forall r :: r in rows ==> r.searchQuery == Some(query)
    ensures WithinLimit(visits, limitPerSub) ==> total <= limitPerSub * |visits|
  {
    rows, total := CollectPosts(visits, Some(query), parse);
    if WithinLimit(visits, limitPerSub) {
      YieldedWithinLimit(visits, limitPerSub);
    }
  }

  /** With a source that honours the limit, at most `limitPerSub` items per subreddit. */
  lemma {:induction false} YieldedWithinLimit(visits: seq<Visit>, limitPerSub: nat)
    requires WithinLimit(visits, limitPerSub)
    ensures |AllYielded(visits)| <= limitPerSub * |visits|
  {
    if |visits| > 0 {
      var n := |visits| - 1;
      assert WithinLimit(visits[..n], limitPerSub) by {
        forall i | 0 <= i < n
          ensures |Yielded(visits[..n][i].outcome)| <= limitPerSub
        {
          assert visits[..n][i] == visits[i];
        }
      }
      YieldedWithinLimit(visits[..n], limitPerSub);
      assert |Yielded(visits[n].outcome)| <= limitPerSub;
      assert limitPerSub * |visits| == limitPerSub * n + limitPerSub;
    }
  }

  /** The items of two runs of visits, one after the other, are the items of
      the first run followed by those of the second. */
  lemma {:induction false} AllYieldedAppend(a: seq<Visit>, b: seq<Visit>)
    ensures AllYielded(a + b) == AllYielded(a) + AllYielded(b)
  {
    if |b| == 0 {
      assert a + b == a;
    } else {
      var n := |b| - 1;
      var ab := a + b;
      var m := |ab| - 1;
      assert ab[..m] == a + b[..n];
      assert ab[m] == b[n];
      assert ab[..m + 1] == ab;
      assert b[..n + 1] == b;
      var last := Yielded(b[n].outcome);
      calc {
        AllYielded(ab);
        { AllYieldedStep(ab, m); }
        AllYielded(a + b[..n]) + last;
        { AllYieldedAppend(a, b[..n]); }
        AllYielded(a) + AllYielded(b[..n]) + last;
        { AllYieldedStep(b, n); }
        AllYielded(a) + AllYielded(b);
      }
    }
  }

  /** Failure isolation: the rows are those of the visits before `i`, then the
      rows of the items visit `i` yielded (all of them, or those before its
      error), then the rows of the visits after `i`, whatever visit `i`'s outcome. */
  lemma GatheredIsolation(visits: seq<Visit>, i: nat, query: Option<string>, parse: UrlParser)
    requires i < |visits|
    ensures Gathered(visits, query, parse)
         == Gathered(visits[..i], query, parse)
          + RowsOf(Yielded(visits[i].outcome), query, parse)
          + Gathered(visits[i + 1..], query, parse)
  {
    assert visits == visits[..i + 1] + visits[i + 1..];
    AllYieldedAppend(visits[..i + 1], visits[i + 1..]);
    AllYieldedStep(visits, i);
    var before, here, after := AllYielded(visits[..i]), Yielded(visits[i].outcome), AllYielded(visits[i + 1..]);
    RowsOfAppend(before + here, after, query, parse);
    RowsOfAppend(before, here, query, parse);
  }

  /** Three subreddits where the middle one fails before yielding anything: the
      rows are those of the first and the third, and nothing of the second. */
  lemma MiddleFailureSkipped(a: Visit, b: Visit, c: Visit, query: Option<string>, parse: UrlParser)
    requires b.outcome == Fail([])
    ensures Gathered([a, b, c], query, parse)
         == RowsOf(Yielded(a.outcome), query, parse) + RowsOf(Yielded(c.outcome), query, parse)
  {
    var v := [a, b, c];
    assert v[..1][..0] == [];
    assert AllYielded(v[..1]) == Yielded(a.outcome);
    assert AllYielded(v[..2]) == Yielded(a.outcome) by {
      assert v[..2][..1] == v[..1];
    }
    assert AllYielded(v) == Yielded(a.outcome) + Yielded(c.outcome) by {
      assert v[..2] == v[..|v| - 1];
    }
    RowsOfAppend(Yielded(a.outcome), Yielded(c.outcome), query, parse);
  }
}
