# git-history-normaliser: the timestamp-policy pipeline in Dafny

This project models the pure core of git-history-normaliser. The tool rewrites
the author and committer dates of a selected run of commits. The new date comes
from one of three policies:

- **author**: copy the author date.
- **commit**: copy the committer date.
- **synthetic**: generate a timeline that walks forward through a calendar,
  landing only on enabled days and inside each day's work window.

The modules follow the program's structure:

| module | models |
|---|---|
| `Results` | `Option` and `Result` with `:-` propagation |
| `Text` | `str.strip`, `str.split`, `str.splitlines`, ASCII case mapping |
| `Decimal` | `str(int)`, the digit parser of `int()`, zero padding |
| `Chrono` | proleptic day ordinals (0001-01-01 is day 1), `weekday()`, `isoformat()` and `strptime("%Y-%m-%d")` for dates, and `DateTime` (local seconds plus an optional fixed offset) |
| `Json` | the loosely typed policy document: null, bool, int, float, string, object |
| `Policy` | the `Config`, `TimestampConfig` and `ScopeConfig` records `load_config` builds from a document |
| `Validation` | `validate_config` and its helpers, with a dotted field path on every failure |
| `Scope` | `apply_scope` |
| `Random` | `randint` over an explicit stream of raw draws |
| `Engine` | `compute_timestamps`, the copy modes, and the synthetic timeline |
| `Rewrite` | `_format_git_date`, and the date map and plan of `_build_rewrite_plan` |
| `Repo` | the `Commit` record, `_normalise_repo_path` and the log-line loop of `load_commit_history` |
| `DryRun` | `build_entries`, `_format_table` and `render_dryrun_report` |
| `YamlEmit` | `build_policy_dict` of the web front end and its helpers |
| `EmitRoundTrip` | proofs that what the front end emits passes the validator |
| `Services` | `_normalise_repo_path` of the front end |

Some things the program gets from its surroundings become parameters:

- The zone database is a `ZoneDatabase` parameter.
- The date parser `datetime.fromisoformat` used on git's output is an `IsoParser` parameter.
- `datetime.isoformat` used in the report is an `isoformat` parameter.
- How `random.Random(seed)` seeds its stream is a `seeding` parameter.
- Whether the program runs on Windows is an `onWindows` flag.
- The text of `scope_fraction` in the report header (Python's `f"{scope_fraction}"`, the shortest float repr) is a `fractionText` parameter.

Times inside the engine are integer seconds of local time in the calendar's
one zone: `day * 86400 + second-of-day`.

## Model

| member | source | states |
|---|---|---|
| Policy.FromDocument | synth/config.py:104-121 | a record is built only when `timestamp` and `scope` are objects, and its mode is the document's `timestamp.mode` text |
| Validation.ValidateConfig | synth/validation.py:100-134 | success implies a well-formed config with `timestamp` and `scope` copied; in author/commit mode it succeeds iff no synthetic section is present, and otherwise fails at the first section present; an unknown mode fails at `timestamp.mode`; in synthetic mode the first missing section fails, and otherwise it succeeds iff all three section validators do and carries their results |
| Validation.ForbidSyntheticSections | synth/validation.py:272-280 | no error iff calendar, work_patterns and randomness are all absent; the error names the first present, in that order |
| Validation.ValidateCalendar | synth/validation.py:146-178 | success implies `start <= end`, both fields were strings that parse as dates, and the zone name is the normalised one; a UTC alias gives offset 0; non-string start/end fail at `calendar.start`/`calendar.end`; start after end fails at `calendar` |
| Validation.TimezoneName | synth/validation.py:161-169 | an absent name is `UTC`; a string is stripped; an empty or non-string name fails at `calendar.timezone` |
| Validation.ParseDate | synth/validation.py:322-326 | succeeds iff the text parses as `%Y-%m-%d`, giving that date's ordinal; the error carries the path |
| Chrono.IsoFormatRoundTrip | synth/validation.py:324 | parsing a valid date's `isoformat()` text with `%Y-%m-%d` gives the date back |
| Chrono.OrdinalOrder | synth/validation.py:158 | date order is ordinal order, in both directions, and equal dates have equal ordinals |
| Validation.ResolveTimezone | synth/validation.py:349-362 | `UTC`, `Z` and `Etc/UTC` in any ASCII case give offset 0; any other name succeeds iff the zone database finds it; the error carries the path |
| Validation.UpperMatchesIgnoringCase | synth/validation.py:350-351 | comparing `name.upper()` with an upper-case target is comparing the names case-insensitively |
| Validation.ValidateWorkPatterns | synth/validation.py:191-215 | success implies all three blocks are objects, each validated, and at least one enabled; three valid but disabled blocks fail at `work_patterns` |
| Validation.ValidateWorkBlock | synth/validation.py:283-319 | success implies `enabled` iff `hours` and `start < end`; a non-boolean `enabled` fails at `.enabled`; a disabled block succeeds iff `hours` is absent; an enabled block without an `hours` object fails at `.hours`; the hours are the parsed start and end texts |
| Validation.SplitTime | synth/validation.py:330-338 | the shape is wrong iff the text does not split into two parts on `:`; both fields are the `int()` values of the two parts |
| Validation.ParseTime | synth/validation.py:329-346 | succeeds iff two integer fields with hour 0..23 and minute 0..59, giving `hour * 60 + minute`; the error carries the path |
| Validation.ParseClockText | synth/validation.py:329-346 | every minute of the day written as `HH:MM` parses back to itself |
| Decimal.ParsePyInt | synth/validation.py:335-336 | a text parses iff, once stripped of surrounding whitespace, it is an optional `+` or `-` followed by digits with single underscores between digits; a plain digit string parses to its value |
| Decimal.PyIntRoundTrip | synth/validation.py:335-336 | `int(str(n)) == n` for every integer, negative ones included |
| Decimal.PyIntIgnoresPadding | synth/validation.py:335-336 | surrounding whitespace does not change what is read |
| Decimal.PyIntIgnoresUnderscores | synth/validation.py:335-336 | an underscored literal reads as the same digits without underscores, and is not negative |
| Decimal.NegativeValue | synth/validation.py:335-336 | `-` before an unsigned literal gives the negated value of its digits |
| Decimal.PositiveValue | synth/validation.py:335-336 | `+` before an unsigned literal gives the value of its digits |
| Decimal.PyIntRejects | synth/validation.py:335-336 | `1a`, `1__0`, `_1`, a bare `+` and blank text are refused, as `int()` raises ValueError for them |
| Validation.ValidateRandomness | synth/validation.py:227-269 | succeeds iff the seed is null or an int (not a bool), both ranges are objects of ints, `0 <= gap min <= gap max` and `0 <= sec min <= sec max <= 59`; the result carries exactly those values |
| Validation.RequireInt | synth/validation.py:365-373 | succeeds iff the value is an int (a bool is not), giving that int; otherwise the fixed message at the given path |
| Scope.SelectedCount | synth/scope.py:49 | `k` is the floor of `abs(fraction) * total`: between 0 and total, 0 for fraction 0 or no commits, all commits for fraction 1 or -1 |
| Scope.ApplyScope | synth/scope.py:41-61 | fails iff the fraction is outside `[-1, 1]`; a positive fraction selects the first `k` commits and leaves the rest, a negative one selects the last `k`; together the two parts are the input, in order |
| Scope.PrefixGrows | synth/scope.py:54-56 | a larger positive fraction selects a longer prefix of the same commits |
| Scope.OppositeEnds | synth/scope.py:54-59 | `f` and `-f` select equally many commits, from opposite ends |
| Random.RandInt | synth/engine.py:139-140 | a draw lies in `[lo, hi]` and consumes one value from the stream; an empty range is an error |
| Engine.ComputeTimestamps | synth/engine.py:48-59 | dispatches author, commit and synthetic modes; any other mode is the `Unsupported timestamp mode` error; success maps exactly the commits' hashes |
| Engine.AuthorMode | synth/engine.py:66-70 | every hash maps to the author date of its last commit with that hash |
| Engine.CommitMode | synth/engine.py:73-77 | every hash maps to the committer date of its last commit with that hash |
| Engine.AssignByHash | synth/engine.py:117-122 | building a dict key by key: the keys are the hashes, and a repeated key keeps the value of its last occurrence |
| Engine.WorkBlockForDay | synth/engine.py:213-222 | weekdays 0..4 select the weekday block, 5 the saturday block, 6 the sunday block |
| Engine.WorkBlockWeekly | synth/engine.py:213-222 | days seven apart get the same block |
| Engine.NextEnabledDay | synth/engine.py:144-156 | the result is the first enabled day in `[start, end]`; it fails, with window exhausted, iff no day in that range is enabled |
| Engine.WindowBounds | synth/engine.py:225-231 | the window runs from the start minute's first second to the end minute's last second of that day |
| Engine.PickTimeInWindow | synth/engine.py:234-257 | an end before the start is an error; otherwise the minute lies in the window, the second in `[sec min, sec max]`, and the instant inside the window bounds |
| Engine.RandomDateTimeForDay | synth/engine.py:197-210 | a disabled day is the internal error; otherwise an instant of that day inside its window; it never reports window exhausted |
| Engine.NextValidDateTime | synth/engine.py:159-194 | never earlier than the candidate; the result lies in an enabled day's window no later than the end day; every day skipped could not take the candidate; a candidate already in a window is returned as it is; window exhausted iff no day up to the end day can take it |
| Engine.AdvanceFindsFirstUsableDay | synth/engine.py:173-194 | a successful walk lands on the first day from the candidate's day on where the candidate, or the day's window, is still usable |
| Engine.AdvanceExhaustedExactly | synth/engine.py:175-194 | the walk reports window exhausted exactly when no usable day remains before the end day |
| Engine.RandomGap | synth/engine.py:131-141 | fails iff either range is empty (the `randint` ValueError); otherwise the gap in seconds lies between `gap min * 60 + sec min` and `gap max * 60 + sec max`, after two draws |
| Engine.Timeline | synth/engine.py:119-122 | one instant per later commit, each in a work window on or before the end day; with gaps that cannot be negative they never go backwards |
| Engine.SyntheticTimes | synth/engine.py:114-123 | the first instant falls on the day `_next_enabled_day` picks; every instant is in a window on or before the end day; with non-negative gaps the run never decreases and stays inside the calendar; no enabled day means window exhausted |
| Engine.Stamped | synth/engine.py:117-122 | each commit's hash maps to its instant in the calendar's zone, and a repeated hash keeps its last occurrence's instant |
| Engine.SyntheticMode | synth/engine.py:92-124 | no commits give an empty map; a missing section is the engine error; success maps every hash to an instant in the calendar's zone, inside a work window and no later than the end day, and not before the start day when gaps cannot be negative |
| Engine.SyntheticFollowsCommitOrder | synth/engine.py:119-122 | with non-negative gaps, a later commit never gets an earlier synthetic date |
| Rewrite.OffsetMinutes | synth/rewrite.py:109-116 | a naive value counts as UTC (0 minutes); otherwise the offset floored to whole minutes |
| Rewrite.OffsetText | synth/rewrite.py:117-124 | five characters: `+` iff the offset is not negative, then four digits |
| Rewrite.OffsetTextRoundTrip | synth/rewrite.py:117-124 | reading the `<sign><HH><MM>` text back gives the offset in minutes |
| Rewrite.FormatGitDateRoundTrip | synth/rewrite.py:101-124 | the `<unix seconds> <sign><HH><MM>` text reads back as the Unix time and the offset in minutes |
| Rewrite.WholeMinuteOffsetRecovered | synth/rewrite.py:109-124 | a whole-minute offset is recovered exactly; a naive value gets the suffix `+0000` |
| Rewrite.BuildDateMap | synth/rewrite.py:140-144 | succeeds iff every selected hash has a computed date, else fails naming the first missing; keys are the lower-cased hashes and each maps to its commit's formatted date |
| Rewrite.FinalTimes | synth/rewrite.py:138 | no selected commits need no engine run; otherwise the engine's result, keyed by the selected hashes |
| Rewrite.BuildRewritePlan | synth/rewrite.py:127-153 | fails on the scope step iff the fraction is outside `[-1, 1]`; fails on the engine step iff scoping succeeds and the engine fails, carrying the engine's error; the plan records the total, the mode, the fraction and the selected count, and its date map is keyed by the selected hashes lower-cased, each mapping to the formatted final date of the last commit with that key |
| Rewrite.PlanNeverMissesTimestamp | synth/rewrite.py:138-144 | the missing-timestamp error can never occur, and the plan's date map is keyed by exactly the selected hashes, lower-cased |
| Repo.NormaliseRepoPath | synth/repo.py:50-60 | off Windows or on other text, unchanged; on Windows `/x/rest` becomes `X:/rest` with the drive upper-cased |
| Repo.NormaliseRepoPathIdempotent | synth/repo.py:53-58 | normalising twice is normalising once |
| Repo.AsWrittenNeverRewrites | synth/repo.py:53-58 | on Windows the path text has back-slashes, so the rewrite as written never fires |
| Repo.AsWrittenMissesGitBashPath | synth/repo.py:53-58 | `/c/repo` comes out as `\c\repo`, not as a drive path |
| Repo.NormaliseWindowsPath | synth/repo.py:53-58 | a Git Bash path becomes the upper-cased drive, a colon and the rest in Windows form; anything else is just the Windows form |
| Repo.CorrectedRewritesGitBashPath | synth/repo.py:53-58 | `/c/repo` becomes `C:\repo` |
| Repo.ParseLine | synth/repo.py:131-169 | a line without exactly nine NUL-separated fields is an error; a parsed commit has the given index, the parsed dates of fields 2 and 3, and the stripped refs |
| Repo.ParseEntryLine | synth/repo.py:131-169 | a clean entry printed as one line parses back to the commit it stands for |
| Repo.ParseCommitLogAsWritten | synth/repo.py:127-171 | an empty log is no commits; otherwise it succeeds iff every `splitlines` line parses at its own position, and then the i-th commit is the i-th line's, with index i |
| Repo.AsWrittenRejectsFormFeedSubject | synth/repo.py:130 | a one-commit log whose subject is a form feed is rejected as malformed |
| Repo.ParseCommitLog | synth/repo.py:127-171 | an empty log is no commits; one commit per newline-separated line, with indices 0 to n-1 in log order |
| Repo.ParseCommitLogByLine | synth/repo.py:130-171 | a non-empty log parses iff each newline-separated line parses at its own position, and then the i-th commit is the i-th line's |
| Repo.CorrectedAcceptsFormFeedSubject | synth/repo.py:130 | with dates `2024-01-01T09:00:00+00:00` that the date parser accepts, the same log is read as one commit whose subject is the form feed |
| Repo.BadLineFailsLog | synth/repo.py:133-134 | one malformed line fails the whole log |
| Repo.LogRoundTrip | synth/repo.py:103-171 | git's rendering of clean entries parses back to exactly those commits, with their positions as indices |
| DryRun.EntryFor | synth/dryrun.py:52-65 | the entry keeps the index and both dates; its prefix is the first `min(hash_len, len)` characters; `changed` iff either date differs from the final one |
| DryRun.BuildEntries | synth/dryrun.py:34-68 | `hash_len <= 0` is the ValueError; otherwise it succeeds iff every hash has a final date, else a KeyError for the first missing; the entries are sorted by index, one per commit |
| DryRun.EntriesArePerCommit | synth/dryrun.py:52-67 | the result is a permutation of the per-commit entries, and entries with equal index keep their order |
| DryRun.EntriesFollowCommits | synth/dryrun.py:52-68 | commits already in index order give their entries in the same order |
| DryRun.SortIsPermutation | synth/dryrun.py:67 | sorting by index rearranges and never adds or drops entries |
| DryRun.SortIsStable | synth/dryrun.py:67 | sorting keeps the order of entries with equal index |
| DryRun.AuthorModeChangedIffDatesDiffer | synth/dryrun.py:54 | in author mode a commit is marked changed exactly when its committer date differs from its author date |
| DryRun.LeftJustify | synth/dryrun.py:143 | the text, then spaces up to the width |
| DryRun.Widths | synth/dryrun.py:136-140 | each width is at least its header and every cell of its column, and equals one of them |
| DryRun.CellAt | synth/dryrun.py:142-143 | each cell appears verbatim at its column's start in the formatted line |
| DryRun.FormatTable | synth/dryrun.py:135-152 | rows wider than the header are refused; otherwise the header line, the dash line, then one line per row, all at the computed widths |
| DryRun.TableLineWidths | synth/dryrun.py:135-152 | the table has two lines more than there are rows, and the header line, the dash line and every full row are each `sum of widths + 2 * (columns - 1)` characters |
| DryRun.RowWidth | synth/dryrun.py:142-143 | a full row is `sum of widths + 2 * (columns - 1)` characters |
| DryRun.TableFits | synth/dryrun.py:136-147 | every header, dash and data cell fits its column width |
| DryRun.IndexRangeLine | synth/dryrun.py:89-94 | `Index range: <none>` exactly when nothing is selected |
| DryRun.IndexRangeOfScope | synth/dryrun.py:89-94 | after scoping a log indexed `0..n-1`, the line shows `[0 .. k-1]` for a prefix, `[n-k .. n-1]` for a suffix, and `<none>` for no selection |
| DryRun.ReportHeader | synth/dryrun.py:85-96 | exactly five lines: `Total commits: ` and the total, `Scope fraction: ` and the fraction's text, `Selected commits: ` and the count, the index range line, `Mode: ` and the mode |
| DryRun.ReportLines | synth/dryrun.py:83-128 | no entries give only the header; otherwise the header, the three-line prefix note and the table sorted by index |
| DryRun.RenderReport | synth/dryrun.py:99-128 | the report text splits on newlines back into its lines |
| YamlEmit.FmtTimeParses | user_ui/yaml_emit.py:185-186 | the `HH:MM` text of a form time parses to its minute of the day |
| YamlEmit.FmtTimeDropsSeconds | user_ui/yaml_emit.py:185-186 | two form times in the same minute are written the same way |
| YamlEmit.RawRange | user_ui/yaml_emit.py:159-170 | defaults when both bounds are missing; only max given gives `min(default min, max)`; only min given gives `max(default max, min)` |
| YamlEmit.Clamp | user_ui/yaml_emit.py:172-177 | at least the lower clamp and at most the upper one; a value already inside is unchanged |
| YamlEmit.NormaliseRange | user_ui/yaml_emit.py:140-182 | the minimum is the clamped raw minimum and the maximum is the clamped raw maximum raised to at least that minimum; so always `min <= max`, both inside the clamp bounds, and a raw range that already is one is kept |
| YamlEmit.NormaliseRangeIdempotent | user_ui/yaml_emit.py:140-182 | normalising a normalised range changes nothing |
| YamlEmit.StartSeed | user_ui/yaml_emit.py:108-109 | the seed's digits are the start date's year, month and day, as `YYYYMMDD` |
| YamlEmit.StartSeedInjective | user_ui/yaml_emit.py:108-109 | different start dates give different default seeds |
| YamlEmit.GapRange | user_ui/yaml_emit.py:111-120 | the emitted gap range is ordered and not negative |
| YamlEmit.SecondsRange | user_ui/yaml_emit.py:122-131 | the emitted seconds range is ordered and within 0..59 |
| YamlEmit.BuildRandomness | user_ui/yaml_emit.py:106-137 | exactly `seed`, `gap_minutes` and `seconds`; the given seed, or the start-date seed when none is given |
| YamlEmit.BuildWorkBlock | user_ui/yaml_emit.py:88-103 | a disabled block is `{enabled: false}` with no hours; an enabled block needs both times and emits them as `HH:MM` |
| YamlEmit.SyntheticPolicy | user_ui/yaml_emit.py:56-73 | a synthetic policy has exactly the five sections |
| YamlEmit.BuildPolicyDict | user_ui/yaml_emit.py:32-73 | author/commit modes emit only `timestamp` and `scope`; another non-synthetic mode is the ValueError; synthetic mode needs both calendar dates and emits a UTC calendar, three work blocks and randomness |
| EmitRoundTrip.EmittedBlockValidates | user_ui/yaml_emit.py:88-103 | an emitted work block passes the block validator iff its window is not empty at minute precision, and then carries the form's minutes |
| EmitRoundTrip.SubMinuteWindowRejected | user_ui/yaml_emit.py:185-186 | a 09:00:00 to 09:00:30 window is emitted as 09:00 to 09:00 and rejected by the validator |
| EmitRoundTrip.EmittedCalendarValidates | user_ui/yaml_emit.py:59-63 | an emitted calendar validates iff start is not after end, with the start and end ordinals and zone UTC at offset 0 |
| EmitRoundTrip.EmittedRandomnessValidates | user_ui/yaml_emit.py:106-137 | emitted randomness always passes the validator, carrying the emitted seed and ranges |
| EmitRoundTrip.EmittedPatternsValidate | user_ui/yaml_emit.py:65-69 | emitted work patterns validate iff some block is enabled and every enabled block's window is non-empty |
| EmitRoundTrip.EmittedCopyPolicyValidates | user_ui/yaml_emit.py:50-51 | an author/commit policy loads and validates, with no synthetic sections |
| EmitRoundTrip.EmittedSyntheticPolicyValidates | user_ui/yaml_emit.py:32-73 | a synthetic policy loads; it validates iff the form's calendar and blocks are usable, and then carries the emitted calendar, blocks and randomness |
| Services.NormaliseFormPath | user_ui/services.py:215-233 | the text is stripped; on Windows a stripped match of `^/([a-zA-Z])/(.+)$` becomes the upper-cased drive, `:/` and the rest; anything else is the stripped text |
| Services.NormalisedIsStripped | user_ui/services.py:222 | the result never has whitespace at either end |
| Services.NormaliseFormPathIdempotent | user_ui/services.py:215-233 | normalising twice is normalising once |
| Services.AgreesWithRepoRewrite | user_ui/services.py:227-233 | on stripped, newline-free text other than a bare drive, the front end and the history reader agree |
| Services.BareDriveDiffers | user_ui/services.py:31 | `/c/` is left alone by the front end but becomes `C:/` in the history reader |
| Services.DriveRewrite | user_ui/services.py:227-233 | `/x/rest` becomes `X:/rest` on Windows for any letter and non-empty rest, and is unchanged elsewhere |
| Services.SurroundingSpaceIgnored | user_ui/services.py:222 | whitespace around the path does not change the result |

## Left out

- Validation.ResolveTimezone: a named zone is one fixed offset from the `ZoneDatabase` parameter. `ZoneInfo` has DST, so its offset depends on the instant; that is not modelled.
- Rewrite.FormatGitDate: takes the offset stored in the `DateTime`, a single fixed offset. Per-instant DST offsets, and local times that do not exist or occur twice at a DST change, are not modelled.
- Rewrite.BuildDateMap: the formatted dates inherit the fixed-offset model above.
- Rewrite.BuildDateMap: the hash key is lower-cased with `AsciiLower`. `str.lower()` also maps non-ASCII letters; git hashes are hexadecimal, so the two agree on real input.
- Engine.NextEnabledDay: the walk past `date.max` (9999-12-31) raises `OverflowError` in the source. The model has unbounded ordinals and reports the end of the calendar as window exhausted instead.
- Engine.NextValidDateTime: same as above for the day step and the midnight `datetime.combine` of the next day. `Engine.Advance` carries the walk.
- Engine.Timeline: `current + gap` past `datetime.max` raises `OverflowError` in the source. In the model the instant just grows, and the end-day check reports window exhausted.
- Repo.NormaliseRepoPath: the drive test is ASCII letters only and upper-casing is ASCII only. `str.isalpha()` and `str.upper()` also accept and map non-ASCII letters; such a drive is left unchanged here.
- Chrono.StrptimeDate: the digit fields are ASCII digits only. The `\d` of `strptime`'s pattern also matches other Unicode decimal digits.
- Decimal.ParsePyInt: accepts ASCII digits with single underscores, a sign and surrounding whitespace. Non-ASCII decimal digits accepted by `int()` are not modelled.
- DryRun.ReportHeader: the fraction's text is a parameter. Python's float repr (`0.5`, `-1.0`, `1e-05`) is not modelled, so the line is stated in terms of whatever text is passed.
- Random.RandInt: the generator is an abstract stream of raw draws, not the Mersenne Twister. Only the range guarantee of `randint` and the number of draws are modelled, not the distribution; seeding is a parameter.
- Microseconds: instants are whole seconds. `datetime` microseconds are dropped, which git's `iso-strict` dates never carry.
- YAML loading, `yaml.safe_dump`, the `QuotedString` representer and the JSON Schema check of `load_config`: foreign libraries. `Policy.FromDocument` takes a document the schema has accepted.
- `scope.fraction` as an IEEE float: the model uses a real, so `abs(fraction) * total` has no rounding.
- The git, git-filter-repo and subprocess plumbing: `rewrite_history`, `_run_git`, `_ensure_*`, `_commit_callback_body`, `_run_git_command`, `ensure_git_repository`, `_run`, `run_dry_run`, `run_rewrite` and `main.py`. These are I/O.
- The Django form rules, the views and the tkinter directory browser: UI framework code. The form's cleaned data is a `FormData` record.
- `datetime.fromisoformat` and `datetime.isoformat`: library parsers and printers, passed in as parameters.
- Dictionary key order in the emitted policy and in the engine's result: maps are unordered here.
- Windows path-separator normalisation by `pathlib`: only the text of the path is modelled. `Repo.NormaliseWindowsPath` models the back-slash form of the path text.

## Findings

| source | as written | input that shows it | evidently intended | confidence | as-written member | corrected member |
|---|---|---|---|---|---|---|
| synth/repo.py:53-58 | On Windows, `str(repo_path)` of a `Path` has back-slashes, so the `/x/` test never matches | `Path("/c/repo")` on Windows gives `\c\repo`, which is returned unchanged | a Git Bash path `/c/repo` becomes `C:\repo` | not executed | Repo.AsWrittenMissesGitBashPath | Repo.CorrectedRewritesGitBashPath |
| synth/repo.py:130 | The log is cut with `str.splitlines()`, which also breaks at form feed, vertical tab, `\x1c`-`\x1e`, `\x85`, U+2028 and U+2029 | one commit `c0ffee` by Ann with author and committer dates `2024-01-01T09:00:00+00:00` and a form feed as its subject: its line splits into two pieces that do not have nine fields, so the history is rejected as malformed | break lines only at `\n`, which is what git's `format:` output puts between commits | not executed | Repo.AsWrittenRejectsFormFeedSubject | Repo.CorrectedAcceptsFormFeedSubject |

The front end keeps seconds on its form times, but the emitter writes only
`HH:MM`. So a window shorter than a minute passes the form and is then refused
by the validator (`EmitRoundTrip.SubMinuteWindowRejected`). That is a property
of the pair, not of either function alone, so it is not listed as a finding.
