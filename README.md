# BookDownloader in Dafny

BookDownloader (`main.js`) reads a CSV export of book links and collects a book id from fields 1 and 6 of each row. For every id it looks up the book's title, asset id and type in Postgres. It fetches the asset from S3: the raw `book` for a pdf, or `index.html` otherwise. It then writes the asset to `book_downloads/` under a name made from the sanitised title. An html asset has its tags stripped and its `&nbsp;` turned into newlines, and the text goes into a docx. Every id whose download stage throws is collected, and the run ends with a summary.

This project models that batch and proves properties of it:

- `wrappers.dfy`: `Option`. It is `undefined` or NULL where JavaScript has them.
- `sanitizer.dfy`: `removeSpaces`. It is written as a left-to-right scan of the regex `[\W_]+` and compared with an independent blank-and-squeeze definition.
- `book_ids.dfy`: `String.prototype.split` on one character, `findBookId`, and the ids a CSV row contributes.
- `html_text.dfy`: the two-step html replace. A match of `<\/?[^>]+(>|$)` is a `<`, then the maximal run of characters other than `>` (at least one), then the `>` if there is one.
- `s3_download.dfy`: the S3 bucket and key, the file name, and what one call of `downloadBookFromS3` does, as a function from its inputs to whether it throws and the events it causes.
- `downloader.dfy`: the module-level state. `bookIdsToDownload` becomes `Downloader.queue`, `failedIds` becomes `Downloader.failed`, and the console, S3 and file writes become `Downloader.log`. It holds the `data`/`error`/`end` handlers of the CSV stream and the `getAWSBookData` loop, as methods proved against specification functions.

The outside world is passed in as parameters:

- `Services.resolve` answers a lookup: `Found(record)`, `NotFound`, or `QueryError` for a rejected query.
- `Services.fetch` answers an S3 `getObject` (`None` when it rejects).
- `Services.dirExists` says whether the output folder exists.

Both functions also receive the queue position, so two lookups of the same id can answer differently.

Points where `main.js` behaves in ways a reader may not expect:

- The progress line is printed only when a download succeeds: main.js:72 is skipped when the stage throws.
- A rejected lookup (main.js:86) is outside the `try`. It ends the loop, and no summary is printed. It is not recorded as a per-item failure.
- A lookup that finds no row reaches `bookData.title` inside the `try` (main.js:89). The `TypeError` makes it a recorded failure.
- A pdf write into a missing folder is only logged by the write callback (main.js:67-69). It never enters `failedIds`.
- "Finished all downloads." is always printed. The failed ids follow only when there are some (main.js:96-100).
- A path with fewer than six segments yields `undefined` (None), which is still pushed and looked up (main.js:77-78, 123, 127).

## Model

| member | source | states |
|---|---|---|
| Sanitizer.CollapseRuns | main.js:25 | the first replace leaves only letters, digits and spaces, never two spaces in a row, keeps the letters and digits in order, starts with a space iff the title does not start with a letter or digit, and is empty iff the title is (the exact value is pinned by `CollapseRunsMatchesReference`) |
| Sanitizer.CollapseRunsMatchesReference | main.js:25-26 | each maximal separator run becomes exactly one space: after the second replace, the result is the blank-and-squeeze reference on every input |
| Sanitizer.SkipRun | main.js:25 | the greedy `+` drops a suffix-preserving prefix of separators: what is left is a suffix of the input that is empty or starts with a letter or digit, with the same letters and digits |
| Sanitizer.Underscores | main.js:26 | the second replace changes each space into `_` and every other character not at all, position by position |
| Sanitizer.RemoveSpaces | main.js:23-27 | the stem holds only ASCII letters, digits and `_`, never two `_` in a row, keeps the title's letters and digits in their original order, is no longer than the title and is empty iff the title is |
| Sanitizer.RemoveSpacesStep | main.js:25-26 | one step of the scan: a leading letter or digit is kept, a leading separator run becomes one `_` |
| Sanitizer.FixedPointIffStem | main.js:23-27 | `removeSpaces(t) == t` exactly when `t` already has the stem shape (both directions) |
| Sanitizer.Idempotent | main.js:23-27 | sanitising twice equals sanitising once |
| Sanitizer.MatchesReference | main.js:25-26 | `removeSpaces` equals the independent definition "replace every non-alphanumeric by `_`, then squeeze runs of `_`" on every input |
| Sanitizer.SeparatorsInterchangeable | main.js:25 | which separator character sits at a place in a title does not change its stem |
| BookIds.Split | main.js:77 | `split('/')` has one more segment than the path has `/`, and no segment contains `/` |
| BookIds.JoinSplit | main.js:77 | joining the segments with `/` gives back the path |
| BookIds.SplitJoin | main.js:77 | splitting a `/`-join of `/`-free parts gives back the parts |
| BookIds.FindBookId | main.js:75-79 | the result is present exactly when the path has at least five `/` (six segments), and a present id never contains `/` |
| BookIds.FindBookIdOfJoin | main.js:75-79 | the id of a path built from six or more `/`-free segments is the segment at index 5 |
| BookIds.RowIds | main.js:120-128 | a row contributes field 1's id, then field 6's id, each only when that field exists and is non-empty |
| BookIds.RowWithTwoPaths | main.js:120-128 | a row whose fields 1 and 6 both hold paths of six or more segments contributes exactly their two ids, in that order |
| BookIds.QueueOfAppend | main.js:120-128 | the queue of more rows is the queue of the earlier rows followed by that of the later ones (read order, duplicates kept) |
| HtmlText.StripTags | main.js:59 | tag stripping never lengthens the text, keeps a leading non-`<` character, leaves text without `<` unchanged, and leaves every `<` either last or followed by `>` |
| HtmlText.StripTagsFixedIff | main.js:59 | tag stripping leaves a text unchanged exactly when no tag match is left in it (both directions) |
| HtmlText.TagEnd | main.js:59 | the rest of a match after its `<` and first character never lengthens the text. `TagEndSkips` pins where it stops |
| HtmlText.TagEndSkips | main.js:59 | the tail of a match stops just past the first `>` |
| HtmlText.TagEndUnterminated | main.js:59 | with no `>` left, the `$` alternative takes the tail of a match to the end of the text |
| HtmlText.TagRemoved | main.js:59 | a complete tag `<name>` is removed whatever follows it |
| HtmlText.EmptyBracketsKept | main.js:59 | `<>` is never matched: it is kept, and stripping goes on after it, whatever follows |
| HtmlText.TrailingBracketKept | main.js:59 | a lone `<` at the very end of `<`-free text is kept |
| HtmlText.UnterminatedTagRemoved | main.js:59 | the `$` alternative: a `<` followed by one or more characters and no `>` removes everything to the end |
| HtmlText.ReplaceNbsp | main.js:60 | the replace never lengthens the text, shortens it exactly when `&nbsp;` occurs, and leaves it unchanged otherwise |
| HtmlText.ReplaceNbspFixedIff | main.js:60 | the replace returns its input exactly when there is no `&nbsp;` in it |
| HtmlText.NoNbspLeft | main.js:60 | after the replace no `&nbsp;` is left: replacing never forms a new one |
| HtmlText.NbspReplaced | main.js:60 | the first `&nbsp;` after `&`-free text becomes one newline and the scan resumes after it |
| HtmlText.ReplaceKeepsNoTagLeft | main.js:59-60 | the `&nbsp;` replace keeps every `<` followed by `>` or last |
| HtmlText.Normalize | main.js:58-60 | the docx text holds no `&nbsp;` and no tag match, and is no longer than the html |
| HtmlText.PlainTextUnchanged | main.js:58-60 | text with no `<` and no `&nbsp;` goes through unchanged |
| HtmlText.NormalizeIdempotent | main.js:58-60 | normalising twice equals normalising once |
| HtmlText.ParagraphExample | main.js:58-60 | `<p>Hi&nbsp;there</p>` becomes `Hi` newline `there` |
| HtmlText.StripTagsPlainPrefix | main.js:59 | text without `<` passes through tag stripping untouched whatever follows it |
| HtmlText.ReplacePlainPrefix | main.js:60 | text without `&` passes through the replace untouched whatever follows it |
| S3Download.ObjectKey | main.js:50 | the key is `book` exactly when the type is `pdf`, and `index.html` otherwise |
| S3Download.ObjectBucket | main.js:49 | the bucket path is the configured bucket, one `/`, and the asset id |
| S3Download.ObjectBucketInjective | main.js:49 | different asset ids never share a bucket path |
| S3Download.Extension | main.js:54 | the extension is `.pdf` exactly when the type is `pdf`, and `.docx` otherwise |
| S3Download.FileName | main.js:54 | the name is at least the extension and at most the title plus the extension, and is the bare extension exactly when the title is empty. `FileNameShape` and `PdfWritesBody` state the rest |
| S3Download.FileNameShape | main.js:54 | the file name has no `/`, ends in the extension, and has no `.` before it |
| S3Download.TitlesCollide | main.js:54 | titles differing only in which separator sits at one place get the same file name |
| S3Download.DownloadBook | main.js:46-73 | the stage asks S3 exactly once and first. It throws exactly when the fetch rejects or the title is NULL, and then does nothing else. Otherwise it starts the pdf write for type `pdf` and the docx write for any other type, then prints progress `index+1` of the total, and for a pdf into a missing folder logs that afterwards |
| S3Download.WriteErrorsNotThrown | main.js:67-69 | whether the stage throws does not depend on the output folder existing |
| S3Download.PdfWritesBody | main.js:54-67 | a successful pdf download writes the fetched body itself, under `removeSpaces(title) + '.pdf'` |
| S3Download.DocxTextNormalised | main.js:56-64 | a successful html download writes the docx of the normalised body under the file name, with no tag or `&nbsp;` left |
| Downloader.ProcessItem | main.js:85-93 | the lookup is outside the `try`: the pass aborts the loop exactly when the query rejects. A missing row is a failure with no events. `FailsIff` and `ItemFetches` state the rest |
| Downloader.StopIndex | main.js:83-86 | the loop stops at the first position whose lookup rejects, or at the end of the queue; no earlier position rejects |
| Downloader.Summary | main.js:96-100 | the completion message always comes first. It is followed by one list of the failed ids exactly when there are some, and by nothing otherwise |
| Downloader.FailingPositions | main.js:88-93 | the failing positions are increasing, in range, and contain a position exactly when its download stage threw |
| Downloader.FailedIdsAtFailingPositions | main.js:83-94 | the failed ids are the queue's entries at the failing positions, in queue order, duplicates kept |
| Downloader.FailsIff | main.js:86-93 | an item fails exactly when its lookup found no row, or the fetch rejected, or the title is NULL |
| Downloader.ItemFetches | main.js:86-89 | a position asks S3 once when its lookup found a row and never otherwise |
| Downloader.NextStop | main.js:83-86 | a rejected lookup is where the loop stops; any other answer lets it go on |
| Downloader.NextFailed | main.js:88-93 | one more position adds its id to the failures exactly when it failed |
| Downloader.NextTrace | main.js:83-94 | one more position appends exactly its own events |
| Downloader.Downloader.constructor | main.js:20-21 | the run starts with an empty queue, no failures and nothing done |
| Downloader.Downloader.OnRow | main.js:120-128 | the `data` handler appends exactly the row's ids to the queue |
| Downloader.Downloader.ReadRows | main.js:118-128 | after the rows, the queue is the old queue followed by the ids of every row in read order |
| Downloader.Downloader.DownloadBookFromS3 | main.js:46-73 | the method throws exactly when the stage does, and appends exactly the stage's events |
| Downloader.Downloader.DownloadAt | main.js:85-93 | one pass of the loop body: a rejected lookup stops the loop with nothing changed; otherwise the failures and the log grow by that position's |
| Downloader.Downloader.GetAWSBookData | main.js:81-101 | the loop processes every position once, in order, up to the first rejected lookup. `failedIds` grows by exactly the ids whose stage threw, in queue order. The log grows by every position's events, then the summary, which is printed only when no lookup rejected |
| Downloader.Downloader.Run | main.js:118-136 | a csv-parse error logs the failure and downloads nothing. A complete one logs the read, then runs the downloads over the queue built from all rows |

## Left out

- The Postgres query (main.js:103-114) is the `Services.resolve` parameter. The S3 client (main.js:10, 53) is `Services.fetch`. The modelled effect of the file system (main.js:63, 67) is `Services.dirExists` plus the write events. None of these is modelled beyond its answer.
- `generateDocXFormat` and `Packer.toBuffer` (main.js:29-44, 62) wrap the docx library. The model records only the text a docx is built from.
- `dotenv`, `AWS.config` and the database connection (main.js:1-18): configuration.
- Asynchronous scheduling is treated as sequential. A write event records when a write is started. The moment the docx file is written is not modelled, and neither is where the pdf callback's log falls among later positions.
- A failure of the docx write (main.js:62-64) is an unhandled rejection outside the stage, and it is not modelled. On Node 15 and later an unhandled rejection ends the process. So for an html asset with no output folder, the program would stop, while the model goes on with the rest of the queue.
- `Body.toString()`: the body is an already-decoded string. A pdf body is written as that same string.
- csv-parse's own parsing and `fromLine: 2`: rows arrive already split into fields, from the second line on.
- `asset_id` and `type` are strings. A NULL `type` behaves like any type other than `pdf`, and a NULL `asset_id` would only change the bucket text.
- Characters are Unicode scalar values, not UTF-16 code units. This does not change what `removeSpaces` produces, since a surrogate half is a separator like the whole character, but lengths are counted in characters.
- S3Download.ObjectBucket: states only the length of the bucket path. The exact text is stated through `ObjectBucketInjective` and the definition.
- Downloader.ItemFetches: the count of S3 calls is proved per position. The total over a whole run follows from `Trace` being the concatenation of positions and is not stated as a separate lemma.
- `CsvInput.Broken` stands for an error of the csv-parse stream only. `.pipe` returns the parser, so the `error` handler (main.js:130) listens to the parser alone. A read error of `bookstodownload.csv` itself (missing or unreadable file) is not handled by main.js and is not modelled.
