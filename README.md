# locplot, modelled in Dafny

`locplot.py` plots lines of code per language over a repository's release
history. It lists the repository's tags with git, keeps the newest 52, checks
out each one, runs the `tokei` line counter with JSON output, and folds the
per-language `code` and `comments` counts into a table. The table is keyed
by language. Each entry has two parallel lists: `x` holds tags and `y` holds
counts. A synthetic `Comments` key collects every positive comment count.
The table's keys, in insertion order, become the stacked bar series of a
plotly chart.

This project models the deterministic core of that script:

- `tokens.dfy` (module `Tokens`): Python's `str.split()` with no argument,
  over Python's whitespace characters.
- `tags.dfy` (module `Tags`): `get_tags`. The git tag listing is an input
  string. The result is either the newest `N_RELEASES` (52) tokens, or a stop
  with exit status 0 and the message `No releases found!`.
- `tokei.dfy` (module `Tokei`): the counter's argument list built in
  `get_loc`, and the typed form of its JSON output. That output is a
  sequence of (language, code, comments) entries.
- `aggregation.dfy` (module `Aggregation`): the statistics table as a value.
  Each step of the aggregation loop is an append of one point to one key
  (`Event`). `Record` performs an append, and `Aggregate` applies all of
  them. Independent reference definitions say which points each series
  must hold: `LanguagePoints`, `CommentPoints`, `TagPoints`, `Select` and
  `FirstOccurrences`. The lemmas connect the table to them.
- `stats.dfy` (module `Stats`): the `defaultdict` as a class `StatsTable`.
  Its fields are the key order (`keys`) and the entries (`series`), and its
  methods update them in place. `Collect` is the module-level aggregation
  loop, lifted into a method. `Bars` is the loop that emits one bar series
  per key.
- `locplot.dfy` (module `Locplot`): the pipeline from the tag listing to the
  bar series. It also holds two worked scenarios.

Inputs standing in for I/O:

- The output of `git tag --sort v:refname` is the string `listing`.
- Checking out a tag, cleaning the tree, running `tokei` and parsing its JSON
  together form the function `measure(tag, argv)`. It returns the
  measurement at that tag.

Behaviour worth knowing:

- `--exclude` takes one optional pattern. It is passed to the counter only
  when it is truthy, meaning present and non-empty.
- An empty tag selection stops the run with status 0 before any checkout.
- Restoring the original branch (locplot.py:88) is not guaranteed. `sh`
  calls `sys.exit` on any failing command, which skips that line. The model
  therefore states no restoration property.
- Keys are ordered by first insertion. Three releases measuring Go, then Go
  and Markdown, then Go give the keys `Go`, `Comments`, `Markdown`, because
  Go's comment count at the first tag creates the `Comments` key
  (`Locplot.ThreeReleases`).

## Model

| member | source | states |
|---|---|---|
| `Tokens.IsSpace` | locplot.py:51 | the separators of `str.split()` are exactly Python's 29 whitespace characters: TAB to CR, the separators 0x1C-0x1F, space, NEL, no-break space and the Unicode spaces |
| `Tokens.Split` | locplot.py:51 | every token of `result.split()` is a non-empty run of non-whitespace characters |
| `Tokens.SplitInterleave` | locplot.py:51 | tokens laid out with whitespace before, after and (non-empty) between them split back into exactly those tokens, so the tokens are the maximal non-whitespace runs |
| `Tokens.SplitDecomposes` | locplot.py:51 | every string is its tokens with whitespace runs around and between them, so the split is determined by the string alone |
| `Tokens.SplitKeepsText` | locplot.py:51 | concatenating the tokens gives exactly the listing's non-whitespace characters in order, so splitting drops only whitespace |
| `Tokens.SplitEmpty` | locplot.py:51-52 | the split is empty exactly when the listing is all whitespace |
| `Tokens.SplitLines` | locplot.py:50-51 | splitting a newline-terminated listing of tags, as git prints it, gives back those tags |
| `Tags.Newest` | locplot.py:51 | `tokens[-N_RELEASES:]` is the suffix of length min(52, n) |
| `Tags.GetTags` | locplot.py:49-55 | stops with status 0 and "No releases found!" exactly when the listing has no tokens (is blank); otherwise min(52, number of tokens) tags, so never more than 52 and exactly 52 when there are at least 52 tokens, each the token at the same position from the end of the listing, in listing order |
| `Tags.GetTagsOfListing` | locplot.py:49-55 | for a git listing of tags, the selection is the newest 52 of them in the same order; an empty listing stops with status 0 |
| `Tokei.Command` | locplot.py:61-63 | the argument list starts with `tokei --output json`; `--exclude <pattern>` follows if and only if the option is a non-empty string |
| `Tokei.CommandExcludes` | locplot.py:61-63 | the exclusion pattern can be read back from the argument list exactly when the option is truthy |
| `Aggregation.RecordKeeps` | locplot.py:82-86 | one `x`/`y` append to a key keeps the table well formed: a new key goes after all existing keys, the point goes at the end of that key's series, and every other entry is unchanged |
| `Aggregation.CountEvents` | locplot.py:82-86 | one language at one tag appends its code count to its own key first, then its comment count to `Comments` only when positive, all at that tag |
| `Aggregation.Aggregate` | locplot.py:78-86 | the table after the loop is well formed, its keys are the appended keys in first-append order, and each series holds exactly the points appended to its key |
| `Aggregation.RecordAllFromEmpty` | locplot.py:78-86 | folding appends into an empty table keeps `x` and `y` the same length and lists each key once; keys are in order of first append, and each series holds exactly the points appended to it, in order |
| `Aggregation.LanguageSeries` | locplot.py:81-83 | a language's series is one `(tag, code)` point per entry naming it, in traversal order |
| `Aggregation.CommentsSeries` | locplot.py:84-86 | the `Comments` series is one `(tag, comments)` point per (tag, language) pair with a positive comment count, not summed per tag |
| `Aggregation.OnePointPerTag` | locplot.py:79-83 | since a measurement names each language once, a language's series has exactly one point per tag measuring it, with that tag's code count |
| `Aggregation.AggregateSeries` | locplot.py:78-86 | the aggregated table has an entry exactly for the keys appended to; each language series and the `Comments` series equal their reference definitions |
| `Aggregation.FirstOccurrencesOrder` | locplot.py:78 | in first-occurrence order, of any two keys the earlier one was appended to first |
| `Aggregation.KeyOrder` | locplot.py:91 | the table's keys, which `stats.items()` visits in order, are ordered by the first append to each |
| `Aggregation.AggregateExtends` | locplot.py:79-86 | measuring more tags never changes or reorders existing keys or points; it only appends |
| `Stats.StatsTable.constructor` | locplot.py:78 | a new table is empty and well formed |
| `Stats.StatsTable.Append` | locplot.py:82-83 | one append to `x` and to `y` of a key, inserting the key at the end when new; the lists stay parallel and existing data is only extended |
| `Stats.StatsTable.AddMeasurement` | locplot.py:81-86 | the table after one tag is the old table with that tag's code and positive comment points appended in order; existing data is only extended |
| `Stats.StatsTable.Bars` | locplot.py:90-97 | one bar per key in insertion order, carrying that key's `x` and `y` lists and width 1 |
| `Stats.Collect` | locplot.py:78-86 | the loop over the selected tags leaves a well-formed table equal to the aggregate of the measurements |
| `Locplot.Runs` | locplot.py:79-80 | one measurement per selected tag, in tag order, each taken at that tag with the same counter argument list |
| `Locplot.Plot` | locplot.py:76-97 | the run stops with status 0 and "No releases found!" exactly when the listing is blank; otherwise the bars are the aggregate's keys in insertion order, built from the measurements of the selected tags taken with the counter's argument list |
| `Locplot.ThreeReleases` | locplot.py:79-86 | three releases give Go `[(v1.0,100),(v1.1,120),(v2.0,150)]`, Markdown `[(v1.1,5)]` and Comments `[(v1.0,10),(v1.1,10),(v2.0,20)]`, with keys ordered Go, Comments, Markdown |
| `Locplot.CommentsNotSummed` | locplot.py:84-86 | two commented languages at one tag give two `Comments` points at that tag |

## Left out

- `sh` and `git` subprocess execution, `bootstrap` (clone, status, fetch,
  symbolic-ref), and `tempfile.mkdtemp` (locplot.py:24-47) are I/O. Their
  only output used by the core is the tag listing, which the model takes as
  an input string.
- The checkout and clean in `get_loc` (locplot.py:58-59), the counter run
  (locplot.py:65) and `json.loads` (locplot.py:66) are I/O and a foreign
  library. The model treats them as the given function `measure`, which it
  assumes is deterministic for a tag and argument list. Fields of the JSON
  other than `code` and `comments` are dropped.
- `is_url` and `is_git_repository` (locplot.py:18-22) wrap `urlparse` and
  the filesystem.
- Argument parsing (locplot.py:69-73) is left out. The `--exclude` value
  is an `Option<string>` input.
- Restoring the branch (locplot.py:88) and every exit through `sys.exit` on
  a failing command are left out. There is no guarantee to model: a failure
  skips the restore.
- The plotly layout, figure and file output, including the default name
  `loc.html` (locplot.py:99-109), are left out. The model stops at the bar
  series handed to the chart.
- Aggregation.CommentsSeries: requires that no measured language is itself
  named `Comments`. The code does not treat such a language specially, so
  its code points would interleave with the comment points. The general
  statement is `Aggregation.RecordAllFromEmpty`, whose `Select` covers that
  case too.
- A measurement (`Tokei.Measurement`) names each language at most once, as
  the keys of a parsed JSON object do; `Aggregation.OnePointPerTag` relies
  on it.
