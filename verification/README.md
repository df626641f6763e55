# Reddit collection pipeline — a Dafny model of its data-cleaning core

The script `reddit_code.py` collects "hot" posts and keyword-search results from a
list of subreddits, turns every post into a fixed fourteen-column row, merges all
rows, removes rows whose permalink repeats an earlier one, and writes a CSV file.
This project models the part of that script that has invariants:

- **Row normaliser** (`submission_to_row`, `safe_get_domain`, `REQUIRED_COLUMNS`), in
  `schema.dfy` and `normalize.dfy`. A submission is a datatype whose attributes are
  all optional. A row is a fourteen-field datatype. Its dictionary form maps exactly
  the canonical column names to cells.
- **Collection runner** (`collect_hot_posts`, `collect_search_posts`), in
  `collect.dfy`. The source is a sequence of visits, one per subreddit. Each visit
  either yielded all its items (`Ok`) or yielded some items and then raised
  (`Fail`). The runner is a nested loop proved equal to a reference definition.
- **Aggregation and dedup sink** (the logic of `save_clean_csv`), in `sink.dfy`
  and `dedup.dfy`. Every record is aligned to the fourteen columns. Then rows whose
  permalink already occurred are removed, keeping the first, as pandas'
  `drop_duplicates(subset=["permalink"])` does with its default `keep='first'`.
  The number removed is reported. Deduplication is generic over the key. It is
  defined the way pandas marks duplicates: row `i` is dropped exactly when an
  earlier row has its key. It is also implemented as a forward pass with a set of
  seen keys, and the two are proved equal.

Behaviour kept exactly as the code has it:
- A submission without a permalink attribute gets the bare `https://www.reddit.com`.
  All such rows share one key and are merged by dedup.
- An empty body stays `""`, because the `if body:` guard skips truncation.
- `created_utc` of zero becomes null.
- Rows yielded by a subreddit before its error are kept, because the `try` wraps
  the whole inner loop.
- `subreddit` and `permalink` are read with the default `""`. An attribute present
  but holding `None` renders as the text `"None"`. `Normalize.Attr` keeps this
  three-way distinction. Every other attribute except `author` is read with the
  default `None`, so "missing" and "None" coincide and an `Option` suffices.
  `author` is read directly; a deleted author is `None`.
- A missing permalink takes part in dedup like any other.
- A malformed URL gives a null domain only when the URL parser raises.

URL parsing (`urlparse(...).netloc`) is a parameter of the model,
`parse: string -> Option<string>`, where `None` stands for "the parser raised".

## Model

| member | source | states |
|---|---|---|
| Schema.ColumnsWellFormed | reddit_code.py:26-41 | There are fourteen distinct canonical columns, and the dedup key column is `permalink`. |
| Schema.Cells | reddit_code.py:83-100 | A row has one cell per canonical column, and the cell in the permalink position is the row's permalink. |
| Schema.ToDictMatchesCells | reddit_code.py:83-100 | The dictionary form of a row has exactly the canonical keys. Under each column it holds the row's cell for that column. |
| Normalize.SafeGetDomain | reddit_code.py:66-73 | An absent or empty URL gives no domain. A domain is only ever the parser's result on a non-empty URL. |
| Normalize.TruncateBody | reddit_code.py:79-81 | An absent body stays absent. A present body becomes a prefix of itself of length min(length, 500). |
| Normalize.ShortBodyUnchanged | reddit_code.py:79-81 | A body of at most 500 characters, including the empty one, is stored unchanged. |
| Normalize.TruncateBodyIdempotent | reddit_code.py:79-81 | Truncating an already stored body again leaves it unchanged. |
| Normalize.AttrText | reddit_code.py:89-91 | An attribute rendered as text gives the default when it is missing, `"None"` when it holds `None`, and its value otherwise. |
| Normalize.SubmissionToRow | reddit_code.py:76-100 | The normalised row carries the pass's query and a permalink under the base URL, and its stored body is never longer than 500 characters; the full field-by-field statement is `Normalize.SubmissionToRowFields`. |
| Normalize.Permalink | reddit_code.py:91 | The permalink starts with the base URL, and what follows is the source permalink (or `""` when it is missing). |
| Normalize.CreatedUtc | reddit_code.py:92-94 | The timestamp is null exactly when the source value is absent or zero. Otherwise it is the source value. |
| Normalize.AuthorName | reddit_code.py:78 | A deleted author gives no name. Otherwise the row holds the account's name, which may itself be absent. |
| Normalize.SubmissionToRowFields | reddit_code.py:76-100 | Each of the fourteen fields of a normalised row is stated in terms of the submission: copied attributes, author, subreddit text, permalink, timestamp, truncated body, guarded domain and query tag. |
| Normalize.PermalinkInjective | reddit_code.py:91 | Two submissions get the same permalink exactly when their relative permalinks render to the same text. |
| Normalize.MissingPermalinksCollide | reddit_code.py:91 | Every submission without a permalink gets the bare base URL, so all of them share one dedup key. |
| Normalize.NormalisedRowIsSchemaComplete | reddit_code.py:83-100 | The dictionary of every normalised row has exactly the canonical columns, and its permalink cell is the row's permalink. |
| Collect.Yielded | reddit_code.py:110-117 | A visit contributes all its items when it succeeds, and the items yielded before the error when it fails. |
| Collect.RowsOf | reddit_code.py:111-112 | There is one normalised row per item, in source order, each tagged with the pass's query. |
| Collect.RowsOfAppend | reddit_code.py:111-112 | Normalising a concatenation of items normalises each part in turn. |
| Collect.AllYieldedStep | reddit_code.py:108-117 | Visiting one more subreddit appends exactly its yielded items. |
| Collect.AppendRows | reddit_code.py:111-113 | The inner loop appends the rows of the items in order, and the running total stays equal to the number of rows. |
| Collect.CollectPosts | reddit_code.py:105-120 | The runner returns the rows of all visits' items, subreddit by subreddit, and a total equal to the number of rows. |
| Collect.CollectHotPosts | reddit_code.py:103-120 | Hot collection returns one row per yielded item with no search query. The total equals the row count, and it is at most limit times the number of subreddits when the source honours the limit. |
| Collect.CollectSearchPosts | reddit_code.py:123-142 | Search collection returns one row per yielded item, each tagged with the query. The total equals the row count, and it is at most limit times the number of subreddits when the source honours the limit. |
| Collect.YieldedWithinLimit | reddit_code.py:111 | If every visit yields at most `limit_per_sub` items, the pass has at most that many per subreddit. |
| Collect.AllYieldedAppend | reddit_code.py:108-117 | The items of two consecutive runs of visits are the first run's items followed by the second's. |
| Collect.GatheredIsolation | reddit_code.py:108-117 | The rows are those of the visits before a given subreddit, then its own rows (all of them, or those before its error), then those of the visits after it, whatever its outcome. |
| Collect.MiddleFailureSkipped | reddit_code.py:108-118 | With three subreddits whose middle one fails at once, the rows are the first's followed by the third's. |
| Dedup.DropDuplicates | reddit_code.py:154 | Dropping duplicates never lengthens the sequence. |
| Dedup.KeySetMembership | reddit_code.py:154 | A key is among the keys of a sequence exactly when some element carries it. |
| Dedup.DuplicatedIffSeen | reddit_code.py:154 | An element is a duplicate exactly when its key occurs among the elements before it. |
| Dedup.DuplicatedInPrefix | reddit_code.py:154 | Whether an element is a duplicate depends only on the elements up to it. |
| Dedup.DropDuplicatesKeySet | reddit_code.py:154 | Dedup loses no key: every input permalink is still represented. |
| Dedup.DropDuplicatesUniqueKeys | reddit_code.py:154 | After dedup no two rows share a key. |
| Dedup.SelectedAtExtend | reddit_code.py:154 | A subsequence of a prefix is a subsequence of the whole, and it stays one when the next position is appended. |
| Dedup.DropDuplicatesSelectsFirstOccurrences | reddit_code.py:154 | The output is the subsequence of the input, in order, at exactly the positions whose key has not occurred earlier. |
| Dedup.UniqueKeysCardinality | reddit_code.py:154 | A sequence with unique keys has as many distinct keys as elements. |
| Dedup.DropDuplicatesCount | reddit_code.py:153-157 | The output has one row per distinct key, so the reported removed count `before - after` is the input length less the number of distinct keys. |
| Dedup.DropDuplicatesOfUnique | reddit_code.py:154 | A sequence without repeated keys is left unchanged. |
| Dedup.DropDuplicatesIdempotent | reddit_code.py:154 | Dedup applied to its own output changes nothing. |
| Dedup.DropDuplicatesKeepsFirst | reddit_code.py:154 | The first row with a key survives, and it is the only survivor with that key. A later row with the same key but other contents is removed. |
| Dedup.DropDuplicatesThree | reddit_code.py:154 | Of three rows where the third repeats the first one's key and the second has another key, the first two remain. |
| Dedup.DropDuplicatesBySeen | reddit_code.py:154 | A single forward pass with a set of seen keys produces exactly the first-occurrence output. |
| Sink.Align | reddit_code.py:148-151 | An aligned record has exactly the fourteen canonical cells in canonical order. A missing column is null, and a column outside the schema is dropped. |
| Sink.AlignAll | reddit_code.py:147-151 | Every record is aligned, in input order. |
| Sink.PermalinkKeyOfAligned | reddit_code.py:151-154 | The dedup key of an aligned record is the record's permalink, or null when it has none. |
| Sink.SaveCleanCsv | reddit_code.py:145-157 | The clean table is the aligned input deduplicated. Every row has fourteen cells, no two rows share a permalink, and every input permalink is among the table's permalinks. The removed count is the input length less the table length, and it equals the input length less the number of distinct permalinks. |
| Sink.AlignRowDict | reddit_code.py:147-151 | Aligning the dictionary of a normalised row gives back its cells unchanged. |
| Sink.AlignIgnoresExtraColumns | reddit_code.py:151 | Records that agree on the canonical columns align identically, so extra columns play no part. |
| Sink.RowDicts | reddit_code.py:147 | The sink receives the normaliser's dictionaries one per row, in order. |
| Sink.ThirdRowDropped | reddit_code.py:154 | For three rows where the third repeats the first one's permalink, the clean table is the first two rows' cells. |
| Sink.EndToEndScenario | reddit_code.py:108-157 | Take two subreddits, the first yielding two posts and the second one post that repeats a permalink. This gives three rows, a clean table of the first subreddit's two rows, and one removed duplicate. |

## Left out

- `load_reddit_from_env` and `main`: environment and `.env` reading, client construction and hard-coded configuration. `Sink.EndToEndScenario` composes one hot collection pass with the sink.
- The PRAW calls `reddit.subreddit(sr).hot(...)` and `.search(...)`: these are network I/O. They are replaced by the sequence of per-subreddit visits. `limit_per_sub` is only forwarded to the source, so it appears only in the bound that holds when the source honours it.
- Normalize.SafeGetDomain: states only the falsy-URL guard and that any domain is the parser's result, because `urlparse(...).netloc` is a parameter of the model; which network location a given URL yields is not stated.
- `urlparse(...).netloc`: a library call, so it is a parameter of the normaliser. Only the falsy-URL guard and the exception-to-null path are modelled.
- `time.sleep(1)` and every `print`: timing policy and console output. The counts are return values instead.
- `df.to_csv`: CSV serialisation and file writing are I/O.
- Floating point: `upvote_ratio` is an opaque value, and `created_utc` is taken as an already-integer value, so the truncation of `int()` on a float is not modelled.
- Pandas type coercion: an integer column holding a missing value becomes float in pandas. The model keeps one cell type per value, and pandas' `NaN` and `None` are both `Null`.
- A submission object without an `author` attribute: the code raises `AttributeError` inside the per-subreddit `try`, which ends that subreddit like a source error. The model expresses that case as a `Fail` outcome holding the items before it, and gives every submission an author field, absent for deleted accounts.
- `str()` of arbitrary objects: a subreddit attribute is modelled as its display name.
