# notion-export-mcp-server: a Dafny model of the export client

This project models the core of the Notion export client, the
`NotionExporter` class of `src/exporter.ts`, and the argument schema of the
export tool in `src/schemas.ts`.

The client exports a Notion block as a zip archive of Markdown files in
four steps:

1. It enqueues an `exportBlock` task for the block id, normalised by
   `toUuid`, along with the merged export options.
2. It polls the task until the task settles.
3. It downloads the archive at the URL the task resolved with.
4. It returns the trimmed text of the first matching archive entry, or of
   every matching entry.

The tool's schema accepts a page `id` made only of `0-9a-z`.

The model has five modules:

- `Outcomes` (`outcomes.dfy`) holds the shared wrappers. `Option` stands for
  a value that may be `undefined`. `Settled` is how a promise of the client
  ends: `Resolved`, `Rejected`, or `Pending`. `Pending` means the promise had
  not settled when the supplied service replies ran out.
- `Uuid` (`uuid.dfy`) models `toUuid`. JavaScript's `slice` clamps its
  bounds, so the model clamps too. That makes `toUuid` total: an id of any
  length gets exactly four dashes.
- `Schemas` (`schemas.dfy`) models the zod schema. It checks the `id` key
  against `^[0-9a-z]+$`, read as a matcher, and drops every other key.
- `Selection` (`selection.dfy`) models `trim` (the ECMAScript white-space
  and line-terminator set), `find` and `filter` over the archive entries in
  archive order, the `.md` / `.csv` predicates, and the single and multiple
  selections.
- `Exporter` (`exporter.dfy`) models four things:
  - The `Object.assign` merge of the caller's options over `defaultConfig`.
    A key is modelled as absent, present as `undefined`, or present with a
    value. `Object.assign` copies a key set to `undefined`, so such a key
    replaces its default.
  - The body posted to `enqueueTask`.
  - The poll decision and its specification over a sequence of observed
    tasks.
  - The class `NotionExporter`. Its two fields are set once in the
    constructor. `PollTask` is a loop that consumes observations and logs
    each wait. The facade methods (`GetZipUrl` … `GetAllMdString`) are
    proved against specification functions.

The remote service is not called. Its replies are an input `Service`:
- the task id that `enqueueTask` answers;
- the task as each successive `getTasks` call finds it;
- the archive served at each URL, as an ordered list of (name, text) entries.

Behaviours of the code worth noting, which the model follows:
- The schema accepts any non-empty `[0-9a-z]` string. That includes lengths
  other than 32 and letters beyond the hex digits.
- The schema has no `recursive` argument.
- `pollInterval` is spread into `exportOptions` along with the other merged
  keys.
- The multiple selection never rejects.

## Model

| member | source | states |
|---|---|---|
| Uuid.Slice | src/exporter.ts:38 | `slice(i, j)` with clamped bounds: the plain slice when `j` is within the string, the rest of the string when only `i` is, and empty when `i` is past the end |
| Uuid.SliceFrom | src/exporter.ts:38 | `slice(i)` with a clamped start: the rest of the string from `i`, empty when `i` is past the end |
| Uuid.StripDashes | src/exporter.ts:37 | the result has no `-` and is no longer than the input |
| Uuid.ToUuid | src/exporter.ts:36-39 | the result is exactly four characters longer than the dash-free content, for every input length |
| Uuid.SlicesPartition | src/exporter.ts:38 | the five clamped slices `0-8`, `8-12`, `12-16`, `16-20`, `20-` cover the dash-free content exactly, in order |
| Uuid.StripDashesOfToUuid | src/exporter.ts:36-39 | removing the dashes of `toUuid(x)` gives `x` with its dashes removed, so only dashes move |
| Uuid.ToUuidIdempotent | src/exporter.ts:36-39 | `toUuid(toUuid(x)) == toUuid(x)` for every input |
| Uuid.ToUuidGroups | src/exporter.ts:36-39 | with at least 20 dash-free characters, of any length beyond, the result is four longer, has dashes at 8, 13, 18 and 23, holds the content in order in the groups 8-4-4-4-rest, and everything after the 20th character lands in the last group; at 32 characters this is the 36-character UUID form |
| Uuid.ToUuidShort | src/exporter.ts:38 | with fewer than 20 dash-free characters the last group is empty and the result ends with a dash; with at most 8 the four dashes all trail the content |
| Schemas.MatchesPageIdPattern | src/schemas.ts:6 | `^[0-9a-z]+$` read as a matcher; a match is non-empty and every character is in `0-9` or `a-z` |
| Schemas.PatternMeansClassChars | src/schemas.ts:6 | `^[0-9a-z]+$` matches exactly the non-empty strings whose every character is in `0-9` or `a-z` |
| Schemas.ParseRequest | src/schemas.ts:3-10 | parsing succeeds iff `id` is present, is a string, is non-empty and has only `0-9a-z` characters; the parsed request holds that id; every failure of a string id is a pattern failure carrying `Notion page id must only contain 0-9a-z`; a missing or non-string id is a type failure |
| Schemas.EmptyIdRejected | src/schemas.ts:6 | the empty id is refused with the pattern's message (`+` needs one character) |
| Schemas.DashOrUpperCaseRejected | src/schemas.ts:6-8 | an id containing `-` or an upper-case letter is refused with `Notion page id must only contain 0-9a-z` |
| Schemas.AnyLengthAccepted | src/schemas.ts:4-9 | there is no length check: every non-empty id made only of class characters is accepted as it is, 32 characters or not |
| Schemas.OtherKeysIgnored | src/schemas.ts:3-10 | only `id` is declared: adding or changing any other key, `recursive` included, leaves the parse result unchanged |
| Selection.IsSpace | src/exporter.ts:161 | the code points `trim` removes: the ECMAScript WhiteSpace and LineTerminator characters |
| Selection.TrimStart | src/exporter.ts:161 | the left half of `trim`; its contract is TrimStartSpec |
| Selection.TrimStartSpec | src/exporter.ts:161 | the left trim keeps a suffix that does not start with white space, and everything it drops is white space |
| Selection.TrimEnd | src/exporter.ts:161 | the right half of `trim`; its contract is TrimEndSpec |
| Selection.TrimEndSpec | src/exporter.ts:161 | the right trim keeps a prefix that does not end with white space, and everything it drops is white space |
| Selection.Trim | src/exporter.ts:161 | `trim` as the right trim of the left trim; its contract is TrimSpec, with TrimStartSpec and TrimEndSpec saying which piece is kept |
| Selection.TrimSpec | src/exporter.ts:161 | `trim` yields text with no white space at either end, never longer than the input, and empty exactly when the input is all white space |
| Selection.TrimIdempotent | src/exporter.ts:202 | trimming twice is trimming once |
| Selection.EndsWith | src/exporter.ts:175 | `endsWith`; its contract is EndsWithSpec |
| Selection.EndsWithSpec | src/exporter.ts:175 | a string ends with a suffix exactly when it is some text followed by that suffix |
| Selection.FirstMatch | src/exporter.ts:159 | `find` gives the first entry in archive order that the predicate accepts, or none when it accepts no entry |
| Selection.MatchIndices | src/exporter.ts:200 | `filter` as the indices of the accepted entries; every index is that of an entry; MatchIndicesSpec characterizes it |
| Selection.MatchIndicesSpec | src/exporter.ts:200 | `filter` keeps exactly the accepted entries, each once, in increasing archive order |
| Selection.MatchIndicesBound | src/exporter.ts:200 | there are no more matches than entries |
| Selection.FileString | src/exporter.ts:154-164 | the result is the trimmed text of the first accepted entry; it rejects with `Could not find file in ZIP.` when no entry is accepted and also when that entry trims to the empty string |
| Selection.AllFileStrings | src/exporter.ts:195-205 | one trimmed text per accepted entry, in archive order, as many as there are matches; never a rejection |
| Selection.FirstOfAll | src/exporter.ts:159-163 | the single selection is the first text of the multiple one, and rejects when that list is empty or starts with an empty text: one rejects where the other returns `[]` |
| Selection.CsvSuffix | src/exporter.ts:175 | both suffixes end with `.csv`; a `true` flag selects `.csv` and anything else, an absent flag included, selects `_all.csv` |
| Selection.IsMd | src/exporter.ts:185 | the Markdown predicate: the name ends with `.md` |
| Selection.IsCsv | src/exporter.ts:175 | every entry it accepts ends with `.csv`, whatever the flag; with a `true` flag it accepts exactly the `.csv` entries |
| Selection.MdAndCsvDisjoint | src/exporter.ts:175-185 | no entry is picked by both the Markdown and the CSV predicates, whatever the flag |
| Selection.CsvViewsNested | src/exporter.ts:173-176 | every `_all.csv` entry is also a `.csv` entry, so the current-view selection finds at least as many entries |
| Selection.MdString | src/exporter.ts:184-185 | the result is decided by the first `.md` entry in archive order: its trimmed text, or `Could not find file in ZIP.` when that text trims to empty; with no `.md` entry it rejects with the same message; it never stays pending |
| Selection.CsvString | src/exporter.ts:173-176 | the result is decided by the first entry with the flag's suffix: its trimmed text, or `Could not find file in ZIP.` when that text trims to empty; with no entry of that suffix (in particular with no `.csv` entry) it rejects with the same message |
| Selection.AllMdStrings | src/exporter.ts:213-214 | one trimmed text per `.md` entry, as many as there are `.md` entries and in archive order; with no `.md` entry the list is empty |
| Selection.SelectionExample | src/exporter.ts:195-214 | for `.md`, non-`.md`, `.md` entries, the multiple selection yields both Markdown texts in archive order and the single one yields the first |
| Selection.NoMatchExample | src/exporter.ts:159-163 | when the predicate accepts no entry, the single selection rejects and the multiple one yields `[]` |
| Exporter.Assign | src/exporter.ts:60 | `Object.assign` on one key: a key the source has, even as `undefined`, wins; otherwise the target's entry stays; the key is absent only when both lack it |
| Exporter.Merge | src/exporter.ts:60 | every key the caller sets, even to `undefined`, wins; unset keys fall back to `UTC`, `en`, `all` and `1000` (the defaults of lines 29-34); `recursive` has no default |
| Exporter.MergeStable | src/exporter.ts:29-34 | merging a merged configuration again changes nothing; no options and an empty options object both give the defaults |
| Exporter.Classify | src/exporter.ts:101-107 | `success` with a present, non-empty URL resolves with it; `in_progress` or `not_started` polls again; every other state rejects, `success` without a URL included |
| Exporter.TaskFailedMessage | src/exporter.ts:107 | `Export task failed: <taskId>.`, from which the task id can be read back |
| Exporter.SettleIndex | src/exporter.ts:99-110 | the index of the first observation that is not "poll again", or the number of observations when there is none |
| Exporter.PollOutcome | src/exporter.ts:96-111 | pending iff every observation says "poll again"; otherwise the first other observation decides: it resolves iff that task succeeded with a non-empty URL, and then with that URL; a rejection carries `Export task failed: <taskId>.` |
| Exporter.PollCount | src/exporter.ts:96-111 | the polls made are those up to and including the settling one; all but the last said "poll again" |
| Exporter.PollIgnoresLaterObservations | src/exporter.ts:101-107 | once the task resolves or rejects, no further poll is made: later observations change neither the outcome nor the poll count |
| Exporter.PollContinuesAfterPending | src/exporter.ts:103-104 | after observations that all say "poll again", polling proceeds exactly as from scratch on the following ones |
| Exporter.PollExamples | src/exporter.ts:96-111 | in progress twice and then success with URL `U` resolves with `U` after three polls; a `failed` task rejects after one poll |
| Exporter.ZipOutcome | src/exporter.ts:127-133 | an archive is obtained iff the task resolved and its URL serves one, and it is the archive served there; a task rejection reaches the caller with its own reason; a URL serving nothing is a transport error; a pending poll stays pending |
| Exporter.Then | src/exporter.ts:132-133 | a selection runs only on a downloaded archive; rejections pass through unchanged |
| Exporter.ExportOneMarkdownEntry | src/exporter.ts:213-214 | a task that succeeds at the first poll with a URL serving one Markdown entry exports exactly that entry's trimmed text |
| Exporter.ValidatedIdIsGrouped | src/exporter.ts:36-39 | an id of at least 20 characters that passed the schema is sent four characters longer with dashes at 8, 13, 18 and 23, and its dash-free content is the id |
| Exporter.NotionExporter.constructor | src/exporter.ts:53-61 | the cookie header is `token_v2=<tokenV2>;file_token=<fileToken>` and the configuration is the merge of the options over the defaults |
| Exporter.NotionExporter.EnqueueBody | src/exporter.ts:69-89 | an `exportBlock` task on `toUuid(id)`; `recursive` is `true` only when the merged value is `true`; comments are never exported; export type `markdown`; the export options plus `recursive` give back the whole configuration, so `pollInterval` is sent too |
| Exporter.NotionExporter.Interval | src/exporter.ts:98 | the wait is the configured interval when it is non-zero, else 1000; never 0 |
| Exporter.NotionExporter.PollTask | src/exporter.ts:96-111 | the outcome is PollOutcome of the observations; one wait of Interval precedes each poll; polling stops at the settling observation |
| Exporter.NotionExporter.GetZipUrl | src/exporter.ts:119-120 | posts EnqueueBody(id), then polls the answered task id; the URL and waits are those of PollTask |
| Exporter.NotionExporter.GetZip | src/exporter.ts:132-133 | the archive is ZipOutcome of the service's replies |
| Exporter.NotionExporter.GetFileString | src/exporter.ts:154-164 | the single selection applied to the downloaded archive |
| Exporter.NotionExporter.GetAllFileString | src/exporter.ts:195-205 | the multiple selection applied to the downloaded archive |
| Exporter.NotionExporter.GetMdString | src/exporter.ts:184-185 | the first `.md` text of the downloaded archive |
| Exporter.NotionExporter.GetCsvString | src/exporter.ts:173-176 | the first `.csv` or `_all.csv` text of the downloaded archive, by the flag |
| Exporter.NotionExporter.GetAllMdString | src/exporter.ts:213-214 | every `.md` text of the downloaded archive |

## Left out

- HTTP transport is not modelled. This covers the `axios` client, its base
  URL, the `post`/`get` calls, and transport or service failures of
  `enqueueTask` and `getTasks`. The service's replies are inputs. A
  download URL that serves no archive stands for every download failure.
- The `getTasks` lookup is not modelled. `find` by task id can come back
  empty, or the call can fail inside the timer callback. The source then
  never settles its promise. The model's observations are the tasks that
  were found.
- Zip parsing, UTF-8 decoding of entries, and `getMdFiles`/`extractAllTo`
  are not modelled: they are library calls and disk writes. Entries are
  given as already-decoded text.
- Timers and promise scheduling are not modelled. A wait is a logged
  interval.
- `Exporter.NotionExporter.PollTask`: the source polls without bound. The
  model stops when the supplied observations run out and reports
  `Pending`. It makes no claim about termination.
- `Exporter.NotionExporter.Interval`: `pollInterval` is modelled as an
  integer. A `NaN`, fractional or negative interval, and what `setTimeout`
  does with it, are not modelled.
- `Uuid.ToUuid`, `Uuid.Slice`: strings are sequences of Unicode scalar
  values, while JavaScript's `slice` and `length` count UTF-16 code units.
  For an id holding characters outside the Basic Multilingual Plane the cut
  points and the length differ, and JavaScript can split a surrogate pair.
  Ids the schema accepts are ASCII, where the two agree.
- `console.error` logging on a failed task is not modelled.
- Zod's own messages for a missing or non-string `id` are not modelled.
  Both are one `InvalidType` issue.
- Arguments that are not an object cannot be represented at all: the parse
  takes a map from keys to values.
- Entry paths are not modelled. An entry carries only its file name, the
  last segment of its path, which is what the source's predicates read.
  Entries in sub-directories are not told apart from entries of the same
  name at the top.
- The server glue in `src/index.ts` and the demo client
  `examples/export_page.ts` are not part of this model. Both are process,
  transport and file I/O.
