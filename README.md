# clockify-automation: the Toggl-to-Clockify row translation, in Dafny

`main.py` copies time entries from Toggl to Clockify. It reads `config.json`, resolves
the configured Toggl workspace name to its id, downloads a detailed-report CSV for the
configured dates, and turns each CSV row into one Clockify `addEntry` request. Each
request carries:

- the start and end timestamps, parsed with `%Y-%m-%d %H:%M:%S`;
- the description and project, copied from the row;
- the tag list, split from the `Tags` column;
- a billable flag, derived from the `Tags` column.

With `DryRun` set, no request is sent.

This project models that translation and proves what it does:

- `wrappers.dfy`: `Option` and `Result`.
- `text.dfy` (module `Text`): the Python `str` operations the rules rely on.
  These are `strip()` (with Python's whitespace set), `split(',')` with its inverse
  `join`, and the `in` substring test with its index-based definition.
- `tags.dfy` (module `Tags`): the tag list (`SplitTags`) and the billable rule
  (`IsBillable`), with lemmas about both.
- `datetimes.dfy` (module `DateTimes`): `datetime.strptime` for `CSV_DATE_TIME_FORMAT`,
  done the way CPython's `_strptime` does it. The format compiles to a regular expression
  whose groups have the same alternatives, in the same order, as CPython's `TimeRE`. The
  expression is matched from the start of the text, with backtracking. Leftover text is
  an error. The fields must then form a real date-time, or the `datetime` constructor
  raises.
- `workspaces.dfy` (module `Workspaces`): the `wid` list comprehension.
- `migration.dfy` (module `Migration`):
  - the configuration record and `ServiceSettings`;
  - rows as `map<string, string>`, as `csv.DictReader` yields them;
  - the exceptions that end `main()`: `KeyError`, the `ValueError` of `strptime`, and
    `IndexError`;
  - a `ClockifyClient` class whose `sent` field records every `addEntry` request;
  - the loop itself, as methods proved against the function `Replay`.

`Replay` is the loop's meaning for any per-row step. `Step` is the step `main()` uses.

## Behaviour kept as written

The model follows `main.py` where it differs from what the migration is meant to do:

- **Billable rule.** The flag is a substring test on the raw `Tags` text, not a test on
  the tag list. So "unbillable" or "billable-later" make a row billable. Any occurrence of
  "non-billable" makes it non-billable, even when a separate `billable` tag is present.
- **Markers stay.** The `billable` and `non-billable` markers stay in the tag list sent
  to Clockify.
- **No trimming.** Tags are not trimmed (`" non-billable"` keeps its space). Blank pieces
  are dropped.
- **Bad timestamps abort the run.** A timestamp that does not parse raises. This also
  covers an empty end date, as for a running entry. It ends the run and does not skip the
  row. Calls already sent stay sent.
- **Missing columns abort the run.** A missing column raises `KeyError` and ends the run
  the same way. On a dry run the `Description` and `Project` columns are never read.
- **No filtering or cleanup.** `main.py` has none of the following, so the model has none
  either:
  - filtering by client or user;
  - a check that entries belong to the workspace;
  - deleting existing entries before the replay;
  - a missing-project check.

## Model

| member | source | states |
|---|---|---|
| `Text.BlankIffAllSpace` | main.py:69 | `x.strip() == ''` holds exactly when every character of `x` is whitespace |
| `Text.Split` | main.py:69 | `split(',')` gives one more piece than there are commas, and no piece contains a comma |
| `Text.JoinSplit` | main.py:69 | joining the pieces of `split(',')` with commas gives back the original text |
| `Text.SplitJoin` | main.py:69 | splitting comma-free pieces joined by commas gives back the pieces |
| `Text.PieceContained` | main.py:69 | every piece of a split occurs in the split text |
| `Text.ContainsIffOccurs` | main.py:71 | Python's `sub in s` holds exactly when `sub` occurs at some index of `s` |
| `Text.ContainsTransitive` | main.py:71 | a substring of a substring of `s` is a substring of `s` |
| `Tags.KeepNonBlank` | main.py:69 | every piece the filter keeps is non-blank after `strip()`, and it keeps at most as many pieces as it is given |
| `Tags.KeepNonBlankIsSubsequence` | main.py:69 | the kept pieces are the input pieces in their original order, some left out |
| `Tags.KeepNonBlankMultiplicity` | main.py:69 | each non-blank piece is kept exactly as many times as it occurs in the input, and a blank piece never is |
| `Tags.SplitTags` | main.py:69 | every tag is non-blank after `strip()`, and there are at most (number of commas) + 1 tags |
| `Tags.SplitTagsInOrder` | main.py:69 | the tag list is a subsequence of `Tags.split(',')`: the pieces in their original order |
| `Tags.SplitTagsKeepsNonBlankPieces` | main.py:69 | each non-blank piece occurs in the tag list as often as the split produced it, untrimmed; blank pieces never occur |
| `Tags.BlankTagsGiveNoTags` | main.py:69 | a `Tags` value of only commas and whitespace, the empty one included, gives no tags |
| `Tags.MarkerStaysInTags` | main.py:69 | `"billable,client-x"` gives the tags `billable` and `client-x`: the marker is kept |
| `Tags.IsBillableIffOccurs` | main.py:71 | billable exactly when "billable" occurs at some index of the raw text and "non-billable" occurs at none |
| `Tags.NonBillableContainsBillable` | main.py:71 | any text containing "non-billable" contains "billable" |
| `Tags.NonBillableTagWins` | main.py:69-71 | a row with a `non-billable` tag is not billable, whatever its other tags |
| `Tags.BillableTagMakesBillable` | main.py:69-71 | a row with a `billable` tag is billable unless "non-billable" occurs anywhere in its `Tags` |
| `Tags.TwoTags` | main.py:69 | a column with one comma between two non-blank, comma-free texts gives exactly those two texts as tags, untrimmed |
| `Tags.BothMarkersNotBillable` | main.py:69-71 | `"billable,non-billable"` splits into the tags `billable` and `non-billable`, and is not billable: "non-billable" wins even when both markers are tags |
| `Tags.EmptyTagsNotBillable` | main.py:71 | an empty `Tags` column is not billable |
| `Tags.ContainingWordIsBillable` | main.py:71 | "unbillable" is billable, because the test looks for a substring and not for a tag |
| `Workspaces.MatchingIds` | main.py:50 | the comprehension is empty exactly when no workspace has the name; otherwise its head is the id of the first workspace with the name |
| `Workspaces.LookupWorkspace` | main.py:50 | `wid` is the id of the first workspace whose name matches; with no match, the lookup fails |
| `DateTimes.CompileCsvFormat` | main.py:24 | `%Y-%m-%d %H:%M:%S` compiles to year, `-`, month, `-`, day, whitespace run, hour, `:`, minute, `:`, second |
| `DateTimes.StrptimePattern` | main.py:64-67 | a parse that succeeds always yields a date-time the `datetime` constructor accepts |
| `DateTimes.Strptime` | main.py:24 | `strptime(text, fmt)` succeeds only with a valid date-time |
| `DateTimes.ParseDateTime` | main.py:64-67 | a row timestamp that parses is a valid date-time |
| `DateTimes.ParseDateTimeIsStrptime` | main.py:64 | a row timestamp is `strptime` of `"<date> <time>"` with `CSV_DATE_TIME_FORMAT` |
| `DateTimes.ParseCanonical` | main.py:64-67 | a valid date-time written as `YYYY-MM-DD` and `HH:MM:SS` parses back to exactly its six fields |
| `DateTimes.TrailingTextRejected` | main.py:64-67 | any text after the seconds raises "unconverted data"; the timestamp is not truncated |
| `DateTimes.ImpossibleDateTimeRejected` | main.py:64-67 | well-formed text naming a nonexistent date-time (Feb 29 of a common year, day 31 of a 30-day month, year 0000, second 60 or 61) raises |
| `DateTimes.EmptyDateRejected` | main.py:64-67 | an empty date column raises "does not match" |
| `Migration.RowTime` | main.py:64-67 | a row timestamp succeeds exactly when both columns exist and their `"<date> <time>"` parses, and the result is that parse; otherwise it raises `KeyError` for the date column if that is missing, else `KeyError` for the time column, else the `ValueError` of the parse |
| `Migration.ConvertRow` | main.py:64-71 | a row converts exactly when both timestamps parse and `Tags` exists; its tags are `SplitTags(Tags)` and billable is `IsBillable(Tags)`; otherwise it raises the start's exception, else the end's, else `KeyError('Tags')` |
| `Migration.RowCalls` | main.py:63-80 | on a dry run, a row that converts yields no call; otherwise it yields one call that forwards the row's fields (see below); a row that does not convert raises what `ConvertRow` raises, and otherwise a missing `Description`, then a missing `Project`, raises `KeyError` when the run is not dry |
| `Migration.ReplayAppend` | main.py:63 | running the loop over two batches is running it over the first, then over the second if the first completed |
| `Migration.ReplayGoesOn` | main.py:63-80 | a row that succeeds after a completed prefix appends its calls |
| `Migration.ReplayStopsAt` | main.py:63-80 | a row that fails after a completed prefix ends the run with that row's failure and the prefix's calls |
| `Migration.CompletedIffEveryRowOk` | main.py:63-80 | the loop completes exactly when every row succeeds |
| `Migration.AbortsAtFirstFailingRow` | main.py:63-80 | an aborted run stopped at a row whose failure it reports; its calls are exactly those of the rows before that row |
| `Migration.NoCallsFromSilentSteps` | main.py:63-80 | if no row yields a call, the run makes none |
| `Migration.OneCallEach` | main.py:63-80 | if each successful row yields one call, a completed run has one call per row, in row order |
| `Migration.EveryCallSatisfies` | main.py:63-80 | a property of every call a row can yield holds of every call of the run |
| `Migration.DryRunSendsNothing` | main.py:75-80 | with `DryRun` set, no `addEntry` call is made for any row |
| `Migration.OneCallPerRow` | main.py:63-78 | without `DryRun`, a completed run makes exactly one call per row, in row order, and call `i` is row `i`'s |
| `Migration.SameUserAndWorkspace` | main.py:39-41 | every call uses the configured admin email as `userMail` and the configured Clockify workspace |
| `Migration.UnknownWorkspaceSendsNothing` | main.py:50 | with no workspace of the configured name, the run fails with `IndexError` before any row, having sent nothing |
| `Migration.ClockifyClient.constructor` | main.py:44 | a new client has sent nothing |
| `Migration.ClockifyClient.AddEntry` | main.py:76-78 | the request is appended to what was sent, with exactly the arguments given |
| `Migration.ReplayRow` | main.py:64-80 | one pass of the loop body sends exactly the calls `RowCalls` yields for the row, or nothing when it raises, and reports the exception |
| `Migration.ReplayRows` | main.py:63-80 | for a step that agrees with `RowCalls`, after the loop the requests sent are the old ones followed by `Replay`'s calls, and the outcome is `Replay`'s |
| `Migration.Migrate` | main.py:50-80 | `main()` from the lookup on sends exactly `MigrationLog`'s calls and ends with its outcome |

When a row does make a call, `RowCalls` says exactly what that call carries:

- `description` and `projectName` are `row['Description']` and `row['Project']`, unchanged;
- `tagNames` is the whole split tag list, markers included;
- `billable` is `IsBillable(row['Tags'])`;
- `start` and `end` are the row's parsed timestamps;
- `userMail` and `workspace` come from the Clockify settings.

The row succeeds exactly when it converts and, unless the run is dry, has `Description` and
`Project` columns.

## Left out

- Loading `config.json` and the global `config` dictionary. The configuration is the
  `Config` value passed in.
- The logger and its handlers, and the `logger.info` calls. They only write logs.
- The Toggl and Clockify clients: `getProjects`, `getWorkspaces`, `getDetailedReportCSV`
  and the body of `addEntry`. These are network calls into libraries this model does not
  include. The workspace list and the report rows are parameters. `addEntry` is modelled
  only as a request appended to `ClockifyClient.sent`.
- The `csv_filter` built from `From`, `To` and `wid`. It is only passed to the report
  download.
- Writing the report to a uuid-named file and reading it back with `csv.DictReader`.
  Rows arrive already parsed. A short row whose missing cells `DictReader` fills with
  `None` is not modelled.
- `.astimezone(datetime.timezone.utc)`. It depends on the host's time zone. The calls
  carry the parsed local fields. Its error path is not modelled either: on a naive
  date-time near the ends of the range, such as `0001-01-01 00:00:00` on a host east of
  UTC, it raises `OverflowError` and ends the run. In the model that row succeeds.
- `DateTimes.CompileFormat` knows only `%Y`, `%m`, `%d`, `%H`, `%M`, `%S` and `%%`, the
  directives `CSV_DATE_TIME_FORMAT` needs. It reports any other directive as bad, although
  Python supports more.
- `DateTimes.MatchPattern` matches ASCII digits only. Python's `\d` and `int()` also accept
  other Unicode decimal digits. The case-insensitive flag of the compiled expression is
  dropped, because the format has no letters outside its directives.
