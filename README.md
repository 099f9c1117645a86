# Cat breeds and word count: a Dafny model

This project models the logic of a small Go HTTP service (`main.go`). The
model leaves out the HTTP framework, the network and the log file. It
covers three pieces:

- **Word counting** (`countWords` and the verdict in `Countwords`). The
  text is scanned for matches of the RE2 pattern `\b\w+\b`. The count is
  proved to equal the number of maximal runs of ASCII word characters
  `[0-9A-Za-z_]`. A text of at least 8 words gets 200 "OK"; any other
  text gets 406 "Not Acceptable".
- **Grouping by country** (`groupCatBreedsByCountry`). This is a loop
  that files each `CatBreed` under its `country`, with that field
  cleared. It is modelled as a method with a `while` loop over a
  `map<string, seq<CatBreed>>`, and its result is proved to partition
  the input.
- **Pagination** (`getAllCatBreeds`). Page 1 is fetched, and its
  `last_page` becomes the bound of the loop. Pages 2 up to that bound are
  then fetched in order and their records are concatenated. The first
  failing page aborts the whole call with no data. The single-page fetch
  `getCatBreedsByPage` is an oracle: an `Upstream` object that returns a
  fixed answer for each page number and logs every page it is asked for.
  From that log the model proves which pages are requested, in what
  order, and what the result is.

Files: `breeds.dfy` (the record), `word_count.dfy`, `grouping.dfy` and
`pagination.dfy`, one module each.

Two facts about the code are worth stating:

- Page 1 is requested exactly once. The `i == 1` branch
  (main.go:83-86) takes the page count from the first call's answer,
  and that call's records are appended. `RequestedPages` states this.
- A body `{}` binds without error, because `Payload` has no
  `binding:"required"` tag (main.go:22-24). So the count of `""` is 0
  and the answer is 406. The 400 path is left out of this model.

## Model

| member | source | states |
|---|---|---|
| `WordCount.RunLength` | main.go:47 | `\w+` at the front of a text takes the longest prefix of word characters: every character before the returned length is a word character, and the next one is not (or the text ends) |
| `WordCount.Words` | main.go:47-48 | every match that `FindAllString` returns for `\b\w+\b` is a non-empty string of ASCII word characters |
| `WordCount.CountWords` | main.go:46-50 | `countWords` is the number of matches, `len(words)`; there are at most as many as characters. What the number means is proved in `CountWordsIsRunCount`, `CountWordsZero` and `CountWordsAppend` |
| `WordCount.CountWordsIsRunCount` | main.go:46-50 | `countWords` equals the number of positions that start a maximal run of word characters, i.e. the number of maximal runs |
| `WordCount.CountWordsZero` | main.go:46-50 | the count is 0 exactly when the text holds no word character, so also for the empty text |
| `WordCount.WordsAppend` | main.go:47-48 | the matches of `a + [c] + b`, with `c` a non-word character, are the matches of `a` followed by those of `b` |
| `WordCount.CountWordsAppend` | main.go:46-50 | the count of two texts joined by a non-word character is the sum of their counts |
| `WordCount.SingleWord` | main.go:47-49 | a non-empty text made only of word characters is exactly one match |
| `WordCount.CountSpaced` | main.go:46-50 | `k` words joined by single spaces count `k` |
| `WordCount.Judge` | main.go:39-44 | the status is 200 exactly when the count is at least 8, and 406 exactly when it is below 8; the messages are "OK" and "Not Acceptable" |
| `WordCount.PangramAccepted` | main.go:39-49 | "the quick brown fox jumps over the lazy dog" counts 9 and is answered 200 "OK" |
| `WordCount.FewWordsRejected` | main.go:39-49 | the words "too", "few", "words" joined by spaces are the text "too few words"; it counts 3 and is answered 406 "Not Acceptable" |
| `WordCount.FewWordsLiteral` | main.go:39-44 | the literal text "too few words" is answered 406 "Not Acceptable" |
| `Grouping.Cleared` | main.go:117 | a filed record has `country == ""`, and its breed, origin, coat and pattern are unchanged |
| `Grouping.ClearAll` | main.go:116-118 | clearing a sequence of records keeps its length and clears each record in place |
| `Grouping.WithCountry` | main.go:116-118 | the records selected for a country all carry that country, and there are at most as many as in the input |
| `Grouping.WithCountryAppend` | main.go:115-118 | selecting by country distributes over concatenation, so each group keeps input order |
| `Grouping.WithCountryEmpty` | main.go:115-118 | a country gets at least one record exactly when it occurs in the input |
| `Grouping.RestoreGroup` | main.go:116-118 | putting the key back on every record of a group gives exactly the input records of that country, in input order; clearing loses nothing else |
| `Grouping.GroupStep` | main.go:115-118 | one loop iteration, which appends the cleared record to its country's group (creating the group when the key is new), turns a grouping of the records so far into a grouping of one record more |
| `Grouping.GroupsTotalSize` | main.go:113-121 | the lengths of all groups sum to the length of the input: no record is lost or duplicated |
| `Grouping.GroupsNonEmpty` | main.go:118 | no group in the result is empty |
| `Grouping.GroupByCountry` | main.go:113-121 | the keys are exactly the countries of the input, `""` included; each `m[c]` is the input's records of country `c`, in input order, with the country cleared; no group is empty; the group lengths sum to the input length |
| `Grouping.ExampleGrouping` | main.go:113-121 | records A and B from US and C from UK give the keys {US, UK}, with groups [A, B] and [C], country cleared |
| `Pagination.Upstream.FetchPage` | main.go:91-112 | one call to `getCatBreedsByPage(page)`: it is logged as one request for `page` and returns that page's answer |
| `Pagination.PageCount` | main.go:76-86 | the last page the loop covers: page 1's `last_page` when page 1 succeeds with a `last_page` of at least 1, and 1 otherwise. If page 1 reports less than 1, `pages` takes that value, but `i` is already 2 and the loop ends |
| `Pagination.FirstFailure` | main.go:78-82 | the first failing page in a range: every earlier page succeeded, and the page found failed (or no page in the range failed) |
| `Pagination.Attempted` | main.go:78-82 | the number of pages requested lies between 1 and the page count |
| `Pagination.RequestedPages` | main.go:76-88 | the pages requested are 1, 2, 3, … in strictly increasing order, starting at 1, each requested once |
| `Pagination.GetAllCatBreeds` | main.go:75-90 | the upstream log grows by exactly `RequestedPages`, and the result is `AllBreeds`: the first failing page's error, or else the records of pages 1 to `PageCount`, concatenated |
| `Pagination.FailsAt` | main.go:79-82 | if page `i` fails after pages 1 to `i-1` succeeded, the call stops at `i` with that page's error |
| `Pagination.SucceedsThrough` | main.go:78-89 | if every page up to the count succeeds, all of them are requested and their records are returned |
| `Pagination.SinglePage` | main.go:83-88 | if page 1 reports a `last_page` of at most 1, only page 1 is requested and its records are the result |
| `Pagination.FirstPageFails` | main.go:79-82 | if page 1 fails, only page 1 is requested and the result is its error |
| `Pagination.StopsAtFirstFailure` | main.go:78-89 | every requested page except the last one succeeded; the call fails exactly when the last requested page failed, and with that page's error; stopping before the page count happens only on failure |
| `Pagination.SucceedsIffAllPagesSucceed` | main.go:78-89 | the call succeeds exactly when pages 1 to `PageCount` all succeed; then every one of them was requested and the result is their records, in page order |
| `Pagination.GatheredPrefix` | main.go:87 | the records of the first `m` pages come first, in the same order, among those of the first `n` pages |
| `Pagination.OnlyPageOneSetsCount` | main.go:83-86 | the `last_page` of pages other than page 1 is ignored: answers that differ only there give the same requests and the same result |

## Left out

- HTTP routing and handlers: `main`, the gin context in `Countwords` and `Getcatbreeds`, and `ShouldBindJSON` (the 400 path). These are framework glue; only the count-to-verdict step is modelled.
- JSON decoding inside `getCatBreedsByPage`, and the `omitempty` that drops the empty `country` on output. The decoding is foreign library code and is represented only by its outcome (`Page` or `FetchFailed`).
- `http.Get` and `ioutil.ReadAll`. They are network I/O; the `Upstream` object's fixed per-page answer stands in for them. Every page is requested at most once, so a per-page answer loses nothing.
- `logResponseToFile` and its failure handling, and every `log.Println`. These are file-system and logging side effects that never reach the result.
- The RE2 engine itself. `countWords` is specified by its meaning for `\b\w+\b`: maximal runs of ASCII word characters. Text is modelled as Dafny characters (Unicode scalar values), not as UTF-8 bytes. Every non-ASCII character, including an invalid byte that RE2 decodes as U+FFFD, is a separator in both.
- Pagination.GetAllCatBreeds: Go's `int` counter `i` is modelled as unbounded. The wrap-around after `i++` at the maximum `int` would need about 2^63 page fetches and is not modelled.
- WordCount.PangramAccepted: the example text is written as `Spaced` of its word list (the words joined by single spaces), not as the string literal. Proving the 43-character literal equal to it runs out of the solver's resource budget.
