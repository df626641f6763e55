/** The record normaliser: turns one source submission, whose every attribute
    may be absent, into a fourteen-field row. */
module Normalize {
  import opened Wrappers
  import opened Schema

  /** Base URL prefixed to every relative permalink. */
  const BaseUrl: string := "https://www.reddit.com"

  /** Longest body kept in the `selftext` column. */
  const MaxSelftext: nat := 500

  /** An attribute read with a non-`None` default: it may be missing from the
      object, present but holding `None`, or present with a value. */
  datatype Attr<T> = Missing | NoneValue | Given(value: T)

  /** A user account; its `name` may be unavailable. */
  datatype Redditor = Redditor(name: Option<string>)

  /** A source submission. Attributes read with `getattr(..., None)` are
      `Option`s, because a missing attribute and one holding `None` read the same;
      `subreddit` and `permalink` are read with the default `""` and rendered as
      text, so they keep the three-way distinction. */
  datatype Submission = Submission(
    title: Option<string>,
    score: Option<int>,
    upvoteRatio: Option<Ratio>,
    numComments: Option<int>,
    author: Option<Redditor>,
    subreddit: Attr<string>,
    url: Option<string>,
    permalink: Attr<string>,
    createdUtc: Option<int>,
    isSelf: Option<bool>,
    selftext: Option<string>,
    linkFlairText: Option<string>)

  /** URL parsing returning the network location, or `None` when the parser
      raises. The parser itself is not part of this model. */
  type UrlParser = string -> Option<string>

  /** Python's text rendering of an attribute read with default `default`:
      a missing attribute renders the default, one holding `None` renders "None". */
  function AttrText(a: Attr<string>, default: string): (r: string)
    ensures a.Missing? ==> r == default
    ensures a.NoneValue? ==> r == "None"
    ensures a.Given? ==> r == a.value
  {
    match a
    case Missing => default
    case NoneValue => "None"
    case Given(s) => s
  }

  /** The domain of a URL, with a falsy URL (absent or empty) giving `None`. */
  function SafeGetDomain(url: Option<string>, parse: UrlParser): (r: Option<string>)
    ensures url.None? ==> r.None?
    ensures url == Some("") ==> r.None?
    ensures r.Some? ==> url.Some? && |url.value| > 0 && parse(url.value) == r
  {
    match url
    case None => None
    case Some(u) => if u == "" then None else parse(u)
  }

  /** The stored body: a non-empty body is cut to its first `MaxSelftext`
      characters; an absent or empty body passes through. */
  function TruncateBody(body: Option<string>): (r: Option<string>)
    ensures r.None? <==> body.None?
    ensures body.Some? ==> r.value <= body.value
    ensures body.Some? ==> |r.value| == if |body.value| <= MaxSelftext then |body.value| else MaxSelftext
  {
    match body
    case None => None
    case Some(b) => if b == "" then body else Some(if |b| <= MaxSelftext then b else b[..MaxSelftext])
  }

  /** The absolute permalink built from the relative one. */
  function Permalink(p: Attr<string>): (r: string)
    ensures BaseUrl <= r
    ensures r[|BaseUrl|..] == AttrText(p, "")
  {
    BaseUrl + AttrText(p, "")
  }

  /** The creation time: `None` when the source value is absent or zero. */
  function CreatedUtc(c: Option<int>): (r: Option<int>)
    ensures r.None? <==> (c.None? || c.value == 0)
    ensures r.Some? ==> r.value == c.value
  {
    match c
    case None => None
    case Some(t) => if t == 0 then None else Some(t)
  }

  /** The author's name, `None` for a deleted author. */
  function AuthorName(a: Option<Redditor>): (r: Option<string>)
    ensures a.None? ==> r.None?
    ensures a.Some? ==> r == a.value.name
  {
    match a
    case None => None
    case Some(u) => u.name
  }

  /** Normalises one submission, tagging it with the search query if any. */
  function SubmissionToRow(s: Submission, query: Option<string>, parse: UrlParser): (r: Row)
    ensures r.searchQuery == query
    ensures BaseUrl <= r.permalink
    ensures r.selftext.Some? ==> |r.selftext.value| <= MaxSelftext
  {
    Row(
      s.title,
      s.score,
      s.upvoteRatio,
      s.numComments,
      AuthorName(s.author),
      AttrText(s.subreddit, ""),
      s.url,
      Permalink(s.permalink),
      CreatedUtc(s.createdUtc),
      s.isSelf,
      TruncateBody(s.selftext),
      s.linkFlairText,
      SafeGetDomain(s.url, parse),
      query)
  }

  /** What each field of a normalised row holds in terms of the submission:
      attributes read as they are, the author's name or `None`, the subreddit
      as text, the permalink under the base URL, the creation time unless absent
      or zero, the body cut to at most `MaxSelftext` characters, the domain
      unless the URL is falsy, and the query. */
  lemma SubmissionToRowFields(s: Submission, query: Option<string>, parse: UrlParser)
    ensures var r := SubmissionToRow(s, query, parse);
      && r.title == s.title && r.score == s.score && r.upvoteRatio == s.upvoteRatio
      && r.numComments == s.numComments && r.url == s.url && r.isSelf == s.isSelf
      && r.flair == s.linkFlairText
      && (s.author.None? ==> r.author.None?)
      && (s.author.Some? ==> r.author == s.author.value.name)
      && r.subreddit == AttrText(s.subreddit, "")
      && BaseUrl <= r.permalink && r.permalink[|BaseUrl|..] == AttrText(s.permalink, "")
      && (r.createdUtc.None? <==> (s.createdUtc.None? || s.createdUtc.value == 0))
      && (r.createdUtc.Some? ==> r.createdUtc == s.createdUtc)
      && (r.selftext.None? <==> s.selftext.None?)
      && (r.selftext.Some? ==> r.selftext.value <= s.selftext.value)
      && (r.selftext.Some? ==> |r.selftext.value| == if |s.selftext.value| <= MaxSelftext then |s.selftext.value| else MaxSelftext)
      && ((s.url.None? || s.url == Some("")) ==> r.domain.None?)
      && (s.url.Some? && s.url != Some("") ==> r.domain == parse(s.url.value))
      && r.searchQuery == query
  {
  }

  /** A body of at most `MaxSelftext` characters, including the empty body, is
      stored unchanged. */
  lemma ShortBodyUnchanged(s: Submission, query: Option<string>, parse: UrlParser)
    requires s.selftext.Some? && |s.selftext.value| <= MaxSelftext
    ensures SubmissionToRow(s, query, parse).selftext == s.selftext
  {
    var r := SubmissionToRow(s, query, parse).selftext;
    assert r.value <= s.selftext.value && |r.value| == |s.selftext.value|;
  }

  /** Truncating a stored body again changes nothing. */
  lemma TruncateBodyIdempotent(body: Option<string>)
    ensures TruncateBody(TruncateBody(body)) == TruncateBody(body)
  {
    var once := TruncateBody(body);
    if once.Some? {
      assert |once.value| <= MaxSelftext;
      assert TruncateBody(once).value <= once.value;
    }
  }

  /** Two submissions get the same permalink exactly when their relative
      permalinks render to the same text, so deduplication by permalink merges
      those and no others. */
  lemma PermalinkInjective(s1: Submission, s2: Submission, q1: Option<string>, q2: Option<string>, parse: UrlParser)
    ensures SubmissionToRow(s1, q1, parse).permalink == SubmissionToRow(s2, q2, parse).permalink
        <==> AttrText(s1.permalink, "") == AttrText(s2.permalink, "")
  {
    var p1 := SubmissionToRow(s1, q1, parse).permalink;
    var p2 := SubmissionToRow(s2, q2, parse).permalink;
    if p1 == p2 {
      assert p1[|BaseUrl|..] == p2[|BaseUrl|..];
    }
  }

  /** Every submission without a permalink attribute gets the bare base URL,
      so all of them share one deduplication key. */
  lemma MissingPermalinksCollide(s1: Submission, s2: Submission, q1: Option<string>, q2: Option<string>, parse: UrlParser)
    requires s1.permalink.Missing? && s2.permalink.Missing?
    ensures SubmissionToRow(s1, q1, parse).permalink == BaseUrl
    ensures SubmissionToRow(s1, q1, parse).permalink == SubmissionToRow(s2, q2, parse).permalink
  {
  }

  /** The dictionary form of every normalised row carries exactly the canonical
      columns, the permalink among them. */
  lemma NormalisedRowIsSchemaComplete(s: Submission, query: Option<string>, parse: UrlParser)
    ensures ToDict(SubmissionToRow(s, query, parse)).Keys == set c | c in Columns
    ensures "permalink" in ToDict(SubmissionToRow(s, query, parse))
    ensures ToDict(SubmissionToRow(s, query, parse))["permalink"] == Str(SubmissionToRow(s, query, parse).permalink)
  {
    var r := SubmissionToRow(s, query, parse);
    ToDictMatchesCells(r);
    ColumnsWellFormed();
    assert ToDict(r)[Columns[PermalinkColumn]] == Cells(r)[PermalinkColumn];
  }
}
