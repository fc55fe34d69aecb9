# botc-kr: a verified model of the site's logic and its translation tooling

botc-kr is the Korean fan site for *Blood on the Clocktower*. It is a static React site with four
pages: the script list, the Savant proposition generator, the storyteller helper and the game
tracker. Python tooling turns the translators' Google Sheets exports into the site's data. This
project models the logic of both halves in Dafny and proves what that logic promises.

**Translation tooling (Python).**
- `CsvText`: the shared cell and header clean-up and the optional-boolean parser.
- `SheetIssues`, `SheetReader`, `SheetHeaders`, `SheetRows`, `SheetMain`: the Google Sheets CSV
  validator. This covers loading with header findings, the required and known headers, unique
  ids, the character and script row checks, and the exit status.
- `PublicScripts`: the generator of `public/scripts.json`, which merges fields from the existing file.
- `ControlCharSanitizer`: the control-character stripper.
- `PdfData`: the PDF generator's data pre-processing, which extracts the metadata and the
  characters and groups them by team.

**Site (TypeScript).**
- `FetchRetry`: the retrying fetch.
- Hook state machines with explicit events and timers: `AsyncData`, `TransientValue`,
  `ScriptActions`.
- The storyteller helper:
  - `CharacterDialog`: the bounded selection of the character dialog;
  - `CharacterInfoMap`: the first-match lookup of information cards;
  - `NightOrder`: the night order;
  - `MessageFormatter`: placeholder substitution, with the `$` patterns JavaScript's `replace` expands in a replacement string;
  - `HelperScriptService`, `HelperScripts`, `HelperCharacters`: loading and normalising a helper script;
  - `NightInfo`, `HelperTypes`: the helper's fixed data.
- The game tracker: `LogParser`, `TrackerApi` and the older `LegacyTrackerApi` loaders,
  `GameLogs`, `DashboardMetrics`.
- Small utilities: `ScriptCategories`, `Urls`, `Routes`, `RoleId`, `Savant`.
- Shared helpers: `Wrappers`, `Json`, `Strings`, `Seqs`, `Sorting`.

**How the model is written.**
- Code that updates state step by step is modelled as methods with loops, or as classes whose
  methods are proved against a pure specification.
- A hook's state is a value. Its `Step` function takes one event (a reload, a settled request,
  a timer firing, an unmount). Its class methods are proved to perform exactly that step.
- Timers, the network, the clock, randomness, local storage, `import.meta.glob` and the
  build-time environment are parameters.

**Where the code and its documentation disagree, the model follows the code.** The help text
of `sanitize_csv_control_chars.py` says carriage returns are kept. The control-character class
it uses removes them, and `ControlCharSanitizer.TabLfKeptCrRemoved` states what the code does.

## Model

| member | source | states |
|---|---|---|
| AsyncData.Initial | src/hooks/useAsyncData.ts:16-19 | the first state holds `initialData`, is loading, has no error and version 0 |
| AsyncData.ErrorMessage | src/hooks/useAsyncData.ts:35-41 | the stored message is `getErrorMessage(e)` when given, else the `Error`'s message, else the default text |
| AsyncData.Step | src/hooks/useAsyncData.ts:21-55 | a reload bumps the version, shows loading and clears the error; a settle of a superseded version changes nothing; the current one clears loading and commits data or reports and records the error message, leaving data; cleanup only bumps the version |
| AsyncData.RunVersion | src/hooks/useAsyncData.ts:22-53 | over any run the version never decreases, and strictly grows past each reload or cleanup |
| AsyncData.SupersededNeverCommits | src/hooks/useAsyncData.ts:30-43 | a request settling after a later reload or cleanup leaves the state unchanged |
| AsyncData.LastIssuedWins | src/hooks/useAsyncData.ts:21-46 | when A is issued before B, A's settling at any time after B leaves data, error and loading as B's outcome set them |
| AsyncData.AsyncLoader.constructor | src/hooks/useAsyncData.ts:16-19 | the hook starts in `Initial` |
| AsyncData.AsyncLoader.Reload | src/hooks/useAsyncData.ts:21-25 | the new state is `Step` of a reload and the returned request version is the current one |
| AsyncData.AsyncLoader.Settle | src/hooks/useAsyncData.ts:27-46 | the new state is `Step` of the settle event |
| AsyncData.AsyncLoader.Cleanup | src/hooks/useAsyncData.ts:52-54 | the new state is `Step` of a cleanup |
| CharacterDialog.MaxCount | src/features/helper/hooks/useCharacterDialogState.ts:82 | the bound is the card's `count` when it has one and unbounded otherwise |
| CharacterDialog.DeselectRemovesOnlyIt | src/features/helper/hooks/useCharacterDialogState.ts:84-86 | picking a selected id removes exactly that id, keeps the others in order and fires no change |
| CharacterDialog.ZeroCountKeepsSelection | src/features/helper/hooks/useCharacterDialogState.ts:88-90 | with `count <= 0` a new pick leaves the selection as it was and fires nothing |
| CharacterDialog.FullSelectionDropsOldest | src/features/helper/hooks/useCharacterDialogState.ts:92-99 | a full selection drops its first id before the new one is appended, and the change fires |
| CharacterDialog.UnboundedAppends | src/features/helper/hooks/useCharacterDialogState.ts:82-99 | without a count every new pick is appended |
| CharacterDialog.SelectionStep | src/features/helper/hooks/useCharacterDialogState.ts:79-100 | the selection stays free of repeats and within a positive bound it started within; the change fires exactly for additions, and an added id comes last |
| CharacterDialog.EligibleCharacters | src/features/helper/hooks/useCharacterDialogState.ts:40-50 | no characters without teams on the card; otherwise exactly the script characters whose defined team the card lists |
| CharacterDialog.EligibleInScriptOrder | src/features/helper/hooks/useCharacterDialogState.ts:40-50 | the eligible characters keep script order and multiplicity: a split script gives the two parts' results in sequence, and one character is kept once exactly when its team is on the card |
| CharacterDialog.FindById | src/features/helper/hooks/useCharacterDialogState.ts:56 | `find` gives nothing iff no character has the id, else the first one that has it |
| CharacterDialog.FirstSelectedCharacterName | src/features/helper/hooks/useCharacterDialogState.ts:51-58 | `''` for an empty selection or an earliest pick missing from the script, else the quoted name of the character with the earliest picked id |
| CharacterDialog.SelectedScriptCharacters | src/features/helper/hooks/useCharacterDialogState.ts:36-39 | exactly the script characters whose id is picked |
| CharacterDialog.SelectedInScriptOrder | src/features/helper/hooks/useCharacterDialogState.ts:36-39 | the picked characters keep script order and multiplicity: a split script gives the two parts' results in sequence, and one character is kept once exactly when it is picked |
| CharacterDialog.CharacterDialogState.constructor | src/features/helper/hooks/useCharacterDialogState.ts:30-32 | no card, an empty selection, the good alignment |
| CharacterDialog.CharacterDialogState.SetSelectedAlignment | src/features/helper/hooks/useCharacterDialogState.ts:32 | only the alignment changes |
| CharacterDialog.CharacterDialogState.ResetSelection | src/features/helper/hooks/useCharacterDialogState.ts:60-62 | the selection becomes empty and nothing else changes |
| CharacterDialog.CharacterDialogState.HandleBackClick | src/features/helper/hooks/useCharacterDialogState.ts:64-67 | the card and the selection are cleared |
| CharacterDialog.CharacterDialogState.HandleInfoClick | src/features/helper/hooks/useCharacterDialogState.ts:69-75 | the card is set and the selection emptied |
| CharacterDialog.CharacterDialogState.HandleCharacterSelect | src/features/helper/hooks/useCharacterDialogState.ts:77-103 | the selection becomes `NextSelection` of the old one under the card's bound, the change counter grows by one exactly on an addition, and the selection stays free of repeats |
| CharacterInfoMap.GetCharacterInfos | src/components/helper/characterInfoMap.ts:216-223 | `getCharacterInfos`: the cards of the first matching entry; `FirstMatchSpec` and `NoCardsIffNoKey` state which entry and when none |
| CharacterInfoMap.FirstMatchSpec | src/components/helper/characterInfoMap.ts:216-223 | the search returns the cards of the first entry, in declaration order, whose key occurs in the id, and none when no key occurs |
| CharacterInfoMap.NoCardsIffNoKey | src/components/helper/characterInfoMap.ts:4-223 | `getCharacterInfos` returns no card exactly when no key of the map occurs in the id (every entry has cards) |
| CharacterInfoMap.PrefixedIdResolves | src/components/helper/characterInfoMap.ts:216-223 | `kokr_washerwoman` finds the cards of `washerwoman` |
| CharacterInfoMap.InfoMapPlaceholders | src/components/helper/characterInfoMap.ts:4-214 | every card of the map whose message names `{character}` has a non-empty team list and a count of 1 |
| CharacterInfoMap.GenericInfosPlaceholders | src/constants/nightInfo.ts:54-116 | the same holds for every generic card |
| ControlCharSanitizer.SanitizeRemovesCounted | translations-tooling/sanitize_csv_control_chars.py:22-27 | the sanitized text is shorter by exactly `count_control_chars`, has a count of 0, and sanitizing again changes nothing |
| ControlCharSanitizer.ChangedIffFound | translations-tooling/sanitize_csv_control_chars.py:39-41 | sanitizing changes the text exactly when it held a control character |
| ControlCharSanitizer.TabLfKeptCrRemoved | translations-tooling/sanitize_csv_control_chars.py:11 | every TAB and LF survives while no CR does, against what the help text says |
| ControlCharSanitizer.DecodeSig | translations-tooling/sanitize_csv_control_chars.py:36-37 | reading with `utf-8-sig` drops at most one leading byte-order mark |
| ControlCharSanitizer.ProcessSpec | translations-tooling/sanitize_csv_control_chars.py:30-47 | a missing file is skipped under `ignore_missing` and an error otherwise; `changed` iff characters were removed; files change only on a change outside a dry run |
| ControlCharSanitizer.WrittenFileIsClean | translations-tooling/sanitize_csv_control_chars.py:43-45 | a rewritten file holds no control character |
| ControlCharSanitizer.ProcessFile | translations-tooling/sanitize_csv_control_chars.py:30-47 | the result and the new files are those of `ProcessSpec` |
| ControlCharSanitizer.ProcessAllSpec | translations-tooling/sanitize_csv_control_chars.py:88-100 | on success one result per path; a dry run leaves the files as they were |
| ControlCharSanitizer.FoundCountZero | translations-tooling/sanitize_csv_control_chars.py:102-111 | no file counts as found exactly when every processed file held no control character |
| ControlCharSanitizer.ExitCode | translations-tooling/sanitize_csv_control_chars.py:98-131 | the exit status is 0 or 1 |
| ControlCharSanitizer.ExitCodeWithoutFailIfFound | translations-tooling/sanitize_csv_control_chars.py:98-131 | without `--fail-if-found` the run fails exactly when a missing file is not ignored |
| ControlCharSanitizer.IgnoreMissingNeverFails | translations-tooling/sanitize_csv_control_chars.py:31-33 | with `--ignore-missing` processing never fails |
| ControlCharSanitizer.CountResults | translations-tooling/sanitize_csv_control_chars.py:102-113 | the counters equal `FoundCount` and `ChangedCount`, skipped files counting for neither |
| ControlCharSanitizer.Run | translations-tooling/sanitize_csv_control_chars.py:85-131 | the files end as `ProcessAllSpec` leaves them and the status is `ExitCode` |
| ControlCharSanitizer.PrefixFailureSticks | translations-tooling/sanitize_csv_control_chars.py:98-100 | once a path fails, the run's outcome is the one at that path |
| CsvText.CountControl | translations-tooling/validate_google_sheet_csv.py:13 | the count of control-class characters is at most the length and is 0 exactly when the text has none |
| CsvText.StripControl | translations-tooling/validate_google_sheet_csv.py:62-77 | deleting the class leaves no control character and shortens the text by exactly their count |
| CsvText.StripControlSubsequence | translations-tooling/validate_google_sheet_csv.py:67-76 | the result keeps the other characters in order |
| CsvText.StripControlKeeps | translations-tooling/validate_google_sheet_csv.py:71-77 | each character outside the class is kept as often as it occurs |
| CsvText.StripControlUnchanged | translations-tooling/validate_google_sheet_csv.py:76 | a text without control characters is unchanged |
| CsvText.StripControlAppend | translations-tooling/validate_google_sheet_csv.py:76 | deleting distributes over concatenation |
| CsvText.SanitizeHeader | translations-tooling/validate_google_sheet_csv.py:62-68 | `sanitize_header`; `SanitizeHeaderClean` and `SanitizeHeaderIgnoresBom` state its result |
| CsvText.SanitizeHeaderClean | translations-tooling/validate_google_sheet_csv.py:62-68 | `sanitize_header(None)` is `""`; a sanitized name holds no control character and no surrounding whitespace |
| CsvText.SanitizeHeaderIgnoresBom | translations-tooling/validate_google_sheet_csv.py:66 | a leading byte-order mark does not change the sanitized name |
| CsvText.UnifyNewlines | translations-tooling/validate_google_sheet_csv.py:75 | the one-pass line-break conversion leaves no CR |
| CsvText.NormalizeNewlinesOnePass | translations-tooling/validate_google_sheet_csv.py:75 | the two chained replaces equal the one-pass conversion of CRLF and lone CR to LF |
| CsvText.UnifyNewlinesKeepsBreaks | translations-tooling/validate_google_sheet_csv.py:75 | every line break (LF, CRLF or lone CR) becomes exactly one LF |
| CsvText.CleanText | translations-tooling/validate_google_sheet_csv.py:71-77 | `clean_text`; `CleanTextClean` and `CleanTextIdempotent` state its result |
| CsvText.CleanTextClean | translations-tooling/validate_google_sheet_csv.py:71-77 | cleaned text holds no control character, no CR and no surrounding whitespace |
| CsvText.CleanTextIdempotent | translations-tooling/validate_google_sheet_csv.py:71-77 | cleaning a cleaned value changes nothing |
| CsvText.BoolWord | translations-tooling/validate_google_sheet_csv.py:85-91 | true exactly for true/1/yes/y, false exactly for false/0/no/n, nothing for the empty text |
| CsvText.ParseOptionalBool | translations-tooling/validate_google_sheet_csv.py:80-91 | `None` stays `None`; otherwise the word spelled by the cleaned, lower-cased text |
| CsvText.ParseOptionalBoolOfCleaned | translations-tooling/validate_google_sheet_csv.py:80-84 | parsing a cleaned value gives what parsing the raw value gives |
| DashboardMetrics.Wins | src/features/tracker/hooks/useDashboardMetrics.ts:26-37 | a side never wins more games than there are |
| DashboardMetrics.WinsAddUp | src/features/tracker/hooks/useDashboardMetrics.ts:26-64 | good wins plus evil wins is the number of games |
| DashboardMetrics.NoWinsIffNone | src/features/tracker/hooks/useDashboardMetrics.ts:26-37 | a side has no wins exactly when no log names it the winner |
| DashboardMetrics.CountWins | src/features/tracker/hooks/useDashboardMetrics.ts:26-37 | the reduce counts the good and the evil wins |
| DashboardMetrics.DateLabel | src/features/tracker/hooks/useDashboardMetrics.ts:54 | `date.slice(5)`: the date without its first five characters, empty for a short one |
| DashboardMetrics.IsoDateLabel | src/features/tracker/hooks/useDashboardMetrics.ts:54 | a `YYYY-MM-DD` date is labelled `MM-DD` |
| DashboardMetrics.Reverse | src/features/tracker/hooks/useDashboardMetrics.ts:58 | the reversed list has the same length and its k-th item is the k-th from the end |
| DashboardMetrics.RecentGameWinners | src/features/tracker/hooks/useDashboardMetrics.ts:49-60 | `recentGameWinners`; `RecentShape` states its length and order |
| DashboardMetrics.RecentShape | src/features/tracker/hooks/useDashboardMetrics.ts:49-60 | `min(10, n)` bars, the first ten logs in reverse order, each labelled by its date with value 1 and the log's winner |
| DashboardMetrics.UseDashboardMetrics | src/features/tracker/hooks/useDashboardMetrics.ts:24-70 | `hasLogs` iff there are logs, `totalGames` is their number, the win counts, the Good-then-Evil chart and the recent bars |
| FetchRetry.AttemptError | src/utils/fetchRetry.ts:13-16 | a rejection is caught as its own reason; a non-OK response as `Error('HTTP <status>')` |
| FetchRetry.Rethrown | src/utils/fetchRetry.ts:22 | the last error is thrown when it is an `Error`, otherwise `Error('fetchWithRetry failed')` |
| FetchRetry.AttemptsFrom | src/utils/fetchRetry.ts:10-21 | from attempt `a`: at most `retries + 1` calls in all, one wait `backoffMs * 2^k` after each failed attempt `k` but the last, the first OK response returned, otherwise the rethrown error of the last attempt |
| FetchRetry.FetchSpec | src/utils/fetchRetry.ts:6-23 | a negative `retries` makes no call and throws the generic error; otherwise 1 to `retries + 1` calls with `backoffMs * 2^k` waits between them, every call before the last failing, and success only on an OK response |
| FetchRetry.FetchWithRetry | src/utils/fetchRetry.ts:1-23 | the attempt loop as written gives exactly `FetchSpec`'s result, number of calls and waits |
| FetchRetry.FirstOkReturned | src/utils/fetchRetry.ts:12-14 | the first OK response within the budget is returned after exactly that many calls |
| FetchRetry.ExhaustedRunThrows | src/utils/fetchRetry.ts:16-22 | when every attempt fails there are `retries + 1` calls and `retries` waits, and the last error is rethrown |
| FetchRetry.DefaultWaits | src/utils/fetchRetry.ts:6-18 | with the defaults and every attempt failing there are three calls and the waits are 300 then 600 |
| FetchRetry.WaitsDouble | src/utils/fetchRetry.ts:18 | each wait is twice the one before |
| FetchRetry.NoStatusClassification | src/utils/fetchRetry.ts:13-19 | turning every failed attempt into a rejection with the error it is caught as leaves the whole run unchanged, whether it ends in success or not: a non-OK status is not classified |
| FetchRetry.SameRunFrom | src/utils/fetchRetry.ts:10-22 | from any attempt on, the run is the same when failed attempts are replaced by rejections with their caught error |
| GameLogs.SortLogsByIdDesc | src/features/tracker/hooks/useGameLogs.ts:6-7 | the sorted copy is a permutation of the logs |
| GameLogs.SortedByIdDesc | src/features/tracker/hooks/useGameLogs.ts:7 | the result has the logs' length and its ids are in non-increasing collation order |
| GameLogs.TiesKeepOrder | src/features/tracker/hooks/useGameLogs.ts:7 | logs whose ids collate equally keep their loading order |
| GameLogs.LoadGameLogs | src/features/tracker/hooks/useGameLogs.ts:15 | the loader returns a permutation of what `fetchGameLogs` returns |
| GameLogs.LoadedLogsListed | src/features/tracker/hooks/useGameLogs.ts:15 | one unloadable module leaves no log; otherwise every module's log is listed, one per entry |
| HelperCharacters.UseHelperCharacters | src/features/helper/hooks/useHelperCharacters.ts:11-30 | `useHelperCharacters`: the script characters and the two night orders built from them; the lemmas below state their members |
| HelperCharacters.CharacterEntries | src/features/helper/hooks/useHelperCharacters.ts:13 | exactly the characters of the character entries, never more items than entries |
| HelperCharacters.ScriptCharactersMembers | src/features/helper/hooks/useHelperCharacters.ts:12-15 | a character is listed exactly when it is a character entry of the script and not a traveller (no team is kept) |
| HelperCharacters.CharacterEntriesInOrder | src/features/helper/hooks/useHelperCharacters.ts:13 | the filter keeps the order of the entries |
| HelperCharacters.MetaEntryIgnored | src/features/helper/hooks/useHelperCharacters.ts:13 | the script's meta entry adds no character |
| HelperCharacters.NoTravelerInNightOrders | src/features/helper/hooks/useHelperCharacters.ts:16-23 | every script character in either night order is a character entry and not a traveller |
| HelperCharacters.ScriptCharacterWoken | src/features/helper/hooks/useHelperCharacters.ts:16-23 | a listed character is in a night order exactly when its number for that night is positive |
| HelperScriptService.NormalizeCharacterEntry | src/features/helper/services/helperScriptService.ts:27-48 | null exactly when the id is not a string or is `'_meta'`; the id is kept; a team is kept exactly when it is a string naming a `Team` value |
| HelperScriptService.CharacterJsonRoundTrip | src/features/helper/services/helperScriptService.ts:37-47 | normalising the JSON of any character other than `_meta` gives that character back, so missing or mistyped fields are the only ones defaulted |
| HelperScriptService.CharacterJsonFields | src/features/helper/services/helperScriptService.ts:37-47 | each field of a character's JSON object reads back as the field, and its team as the team's name |
| HelperScriptService.NormalizeCharacterIdempotent | src/features/helper/services/helperScriptService.ts:27-48 | normalising the JSON of a normalised character gives it back |
| HelperScriptService.NormalizeItem | src/features/helper/services/helperScriptService.ts:53-68 | a script meta item passes as it is; any other item is accepted exactly when it is an object that normalises, as that character |
| HelperScriptService.NormalizeHelperEntries | src/features/helper/services/helperScriptService.ts:50-72 | a result exactly when every item normalises and every entry passes `isHelperEntry`; then one entry per item, in order |
| HelperScriptService.WithLocalIcon | src/features/helper/services/helperScriptService.ts:6-19 | only a character entry with a local icon changes, and only its `image`, which becomes the icon |
| HelperScriptService.ApplyLocalIconFallback | src/features/helper/services/helperScriptService.ts:5-20 | the same number of entries, each passed through the icon fallback |
| HelperScriptService.IconFallbackIdempotent | src/features/helper/services/helperScriptService.ts:5-20 | applying the fallback twice equals applying it once |
| HelperScriptService.FetchHelperScriptEntries | src/features/helper/services/helperScriptService.ts:74-87 | a non-array and a failed normalisation both fail with the same format error; otherwise one entry per item, normalised and with the icon fallback applied |
| HelperScriptService.LoadedCharactersKeepIds | src/features/helper/services/helperScriptService.ts:27-68 | an accepted item other than the meta entry becomes a character carrying the item's own id, never `_meta` |
| HelperScriptService.MalformedItemRejects | src/features/helper/services/helperScriptService.ts:59-66 | an item that is not an object or has no usable id makes the whole script malformed |
| HelperTypes.TeamFromName | src/features/helper/services/helperScriptService.ts:25-35 | a name is mapped to the `Team` member whose string value it is, and to nothing when no member has it |
| HelperScripts.HelperScripts | src/features/helper/scripts.ts:3-59 | one script per listed id, its URL being `buildScriptJsonUrl` of the id |
| HelperScripts.ScriptsById | src/features/helper/scripts.ts:65 | the map's keys are exactly the scripts' ids, each mapped to a script with that id |
| HelperScripts.GetInitialHelperScriptId | src/features/helper/scripts.ts:73-80 | always a known id: the saved one when a window exists and it is known, otherwise the default's |
| HelperScripts.DefaultKnownEmptyUnknown | src/features/helper/scripts.ts:64-68 | the default script's id is known and the empty id is not |
| HelperScripts.IsHelperScriptIdIff | src/features/helper/scripts.ts:3-68 | `isHelperScriptId` holds exactly for the eleven listed ids |
| HelperScripts.ScriptIdsDistinct | src/features/helper/scripts.ts:3-59 | the listed ids are distinct |
| HelperScripts.GetHelperScriptById | src/features/helper/scripts.ts:70-71 | `getHelperScriptById`: the script with that id or the default; `GetHelperScriptByIdFinds` states it |
| HelperScripts.GetHelperScriptByIdFinds | src/features/helper/scripts.ts:64-71 | a listed id finds its own script; any other id falls back to the first, `trouble_brewing` |
| HelperScripts.ScriptUrlsDistinct | src/features/helper/scripts.ts:7-57 | different scripts have different URLs |
| LegacyTrackerApi.PrefixedIdSharesIcon | src/components/tracker/api.ts:45-47 | an id with the `kokr_` or `ko_KR_` prefix finds the same bundled icon as the bare id |
| LegacyTrackerApi.BuildRoleMap | src/components/tracker/api.ts:35-58 | the loop fails exactly on an unreadable (null) role; otherwise the role map and the demon set are those of the shared role-metadata definitions, with the team cast unchecked and roles without an id skipped |
| LegacyTrackerApi.LoadLog | src/components/tracker/api.ts:30-85 | the loop body gives the log built from `roles ?? []` (file name as id, date from its prefix, enriched players, the winner rule), or fails exactly when players are missing or a role is `null` |
| LegacyTrackerApi.LegacyGameLog | src/components/tracker/api.ts:30-85 | the log of one module exists exactly when it has players and no role is `null`, a `null` role list read as empty |
| LegacyTrackerApi.LegacyGameLogAgrees | src/components/tracker/api.ts:38 | without a `null` role list the module's log is the newer loader's; with one it is the log of the same file without roles, keeping its `null`, where the newer loader throws |
| LegacyTrackerApi.LegacyFetchSpec | src/components/tracker/api.ts:25-93 | what the legacy loop returns: one `LegacyGameLog` per module in order, or `[]` when one throws; `LoadersAgree` and `NullRolesSplitLoaders` relate it to the newer loader |
| LegacyTrackerApi.FetchGameLogs | src/components/tracker/api.ts:25-93 | the loop pushes one log per module in order and gives `[]` when any module throws |
| LegacyTrackerApi.LoadersAgree | src/components/tracker/api.ts:25-93 | when no file has `"roles": null` the older loop returns exactly what the newer `fetchGameLogs` returns |
| LegacyTrackerApi.NullRolesSplitLoaders | src/components/tracker/api.ts:38 | a file with `"roles": null` empties the newer loader's result while the older loop still loads every module |
| LogParser.ReadRoleField | src/features/tracker/services/logParserService.ts:10-17 | the named key's string wins; a missing or null named key falls back to the legacy key; any other non-string gives nothing |
| LogParser.ParseRoleTeam | src/features/tracker/services/logParserService.ts:8-25 | a team is kept exactly when it is townsfolk, outsider, minion, demon or traveler |
| LogParser.GetLogFileNameFromPath | src/features/tracker/services/logParserService.ts:30 | the name is a suffix of the path, holds no `/`, and is the whole path or follows a `/` |
| LogParser.FileNameOfPath | src/features/tracker/services/logParserService.ts:30 | the file name of `dir/name` is `name` |
| LogParser.ParseDateFromFilename | src/features/tracker/services/logParserService.ts:32-40 | eight leading ASCII digits give a `YYYY-MM-DD` date with those digits; anything else gives `Unknown` |
| LogParser.DateRoundTrip | src/features/tracker/services/logParserService.ts:32-40 | a file name starting with a date's digits parses back to that date |
| LogParser.UnknownIsNotADate | src/features/tracker/services/logParserService.ts:35 | the fallback `Unknown` is never a date |
| LogParser.RoleEntry | src/features/tracker/services/logParserService.ts:47-56 | a role is recorded exactly when its id reads as a non-empty string, under that id, with the id as the default name and the team reader's team |
| LogParser.BuildRoleMetadata | src/features/tracker/services/logParserService.ts:42-64 | the loop builds exactly the role map and the demon set of the role-by-role definitions |
| LogParser.RoleStep | src/features/tracker/services/logParserService.ts:46-61 | one more role adds its entry to the map (replacing an earlier one with its id) and, for a demon, its id to the set |
| LogParser.RoleMetadataOf | src/features/tracker/services/logParserService.ts:46-56 | the role map after the loop; `RoleMetadataFromLastRole` and `RoleWithIdRecorded` state its entries |
| LogParser.DemonRoleIdsOf | src/features/tracker/services/logParserService.ts:46-60 | the demon set after the loop; `DemonRoleIdsMembers` and `DemonRoleIdsAreKeys` state its members |
| LogParser.RoleMetadataFromLastRole | src/features/tracker/services/logParserService.ts:56 | each key of the map holds the metadata of the last role with that id |
| LogParser.RoleWithIdRecorded | src/features/tracker/services/logParserService.ts:47-56 | every role with an id is in the map |
| LogParser.DemonRoleIdsMembers | src/features/tracker/services/logParserService.ts:58-60 | an id is in the demon set exactly when some role with that id has the team `demon` |
| LogParser.DemonRoleIdsAreKeys | src/features/tracker/services/logParserService.ts:56-60 | every demon id is a key of the role map |
| LogParser.DemonSetIndependentOfTeamCheck | src/features/tracker/services/logParserService.ts:53-58 | checking the team or casting it unchecked gives the same demon set |
| LogParser.EnrichPlayer | src/features/tracker/services/logParserService.ts:70-76 | only `roleName` and `roleImage` change: the metadata's name and icon, or the raw role and no icon |
| LogParser.EnrichPlayersWithRoleMetadata | src/features/tracker/services/logParserService.ts:66-77 | one enriched player per player, in order |
| LogParser.EnrichIdempotent | src/features/tracker/services/logParserService.ts:66-77 | enriching twice equals enriching once |
| LogParser.FindAliveDemon | src/features/tracker/services/logParserService.ts:92 | nothing exactly when no player is an alive demon, otherwise the first alive demon |
| LogParser.ResolveWinner | src/features/tracker/services/logParserService.ts:79-94 | `good` in the name wins first, then `evil`, otherwise evil exactly when some alive player holds a demon role |
| LogParser.WinnerIgnoresEnrichment | src/features/tracker/services/logParserService.ts:66-94 | the winner of the enriched players is that of the raw players |
| MessageFormatter.AlignmentLabel | src/features/helper/services/helperMessageFormatter.ts:3-13 | `선한 진영` exactly for Good and `악한 진영` exactly for Evil |
| MessageFormatter.FormatHelperMessage | src/features/helper/services/helperMessageFormatter.ts:6-13 | `formatHelperMessage`: the two global replaces, with JavaScript's `$` patterns; the lemmas below state what each stage inserts |
| MessageFormatter.CharacterPlaceholderReplaced | src/features/helper/services/helperMessageFormatter.ts:12 | for a name without `$`, every `{character}` becomes the name as it is, and the text on either side is treated alike |
| MessageFormatter.FirstCharacterPlaceholderExpanded | src/features/helper/services/helperMessageFormatter.ts:12 | the first `{character}` becomes the name with its `$` patterns expanded in that occurrence's context; the text before it is kept |
| MessageFormatter.OnlyCharacterPlaceholderExpanded | src/features/helper/services/helperMessageFormatter.ts:11-13 | a message with one `{character}` shows the text around it with the expanded name in between |
| MessageFormatter.MatchPatternKeepsPlaceholder | src/features/helper/services/helperMessageFormatter.ts:12 | a name `$&` puts `{character}` back |
| MessageFormatter.DoubleDollarInName | src/features/helper/services/helperMessageFormatter.ts:12 | a name `a$$b` is shown as `a$b` |
| MessageFormatter.ContextPatternsInName | src/features/helper/services/helperMessageFormatter.ts:12 | `$'` and `` $` `` in the name insert the message text after and before the placeholder |
| Strings.ExpandDollarFree | src/features/helper/services/helperMessageFormatter.ts:12 | a replacement text without `$` is inserted as it is |
| Strings.JsReplaceAllDollarFree | src/features/helper/services/helperMessageFormatter.ts:11-13 | with a replacement text without `$`, the JavaScript global replace is the plain left-to-right replacement |
| Strings.JsReplaceAllAbsent | src/features/helper/services/helperMessageFormatter.ts:11-13 | a text without the pattern is unchanged, whatever the replacement |
| Strings.JsReplaceFirstOccurrence | src/features/helper/services/helperMessageFormatter.ts:12 | the first occurrence of a border-free pattern becomes the expansion of the replacement in its context, the text before it kept |
| Strings.JsReplaceOnlyOccurrence | src/features/helper/services/helperMessageFormatter.ts:12 | a text with one occurrence becomes the text around it with the expansion in between |
| MessageFormatter.AlignmentPlaceholderReplaced | src/features/helper/services/helperMessageFormatter.ts:13 | every `{alignment}` becomes the alignment's label, and the text on either side is treated alike |
| MessageFormatter.PlainMessageUnchanged | src/features/helper/services/helperMessageFormatter.ts:11-13 | a message with neither placeholder is returned unchanged, whatever the name |
| MessageFormatter.CharacterSubstitutedFirst | src/features/helper/services/helperMessageFormatter.ts:12-13 | a name reading `{alignment}` is itself turned into the alignment's label, because `{character}` is substituted first |
| NightOrder.BuildNightOrderCharacters | src/features/helper/services/nightOrderService.ts:4-16 | the result is a permutation of the kept prebuilt steps followed by the script characters with a positive number, built as a new sequence |
| NightOrder.NightOrderSorted | src/features/helper/services/nightOrderService.ts:9-15 | the order is non-decreasing in that night's number |
| NightOrder.ScriptCharacterListed | src/features/helper/services/nightOrderService.ts:13 | a script character is listed exactly when its number for that night is positive |
| NightOrder.NightOrderMembers | src/features/helper/services/nightOrderService.ts:12-15 | everything listed is a prebuilt step with a reminder for that night or a script character with a positive number |
| NightOrder.PrebuiltEntriesByNight | src/constants/nightInfo.ts:7-52 | all four prebuilt steps are kept on the first night; only dusk and dawn on the others |
| NightOrder.PrebuiltStepListed | src/features/helper/services/nightOrderService.ts:12-15 | a step the script does not list appears exactly when it is a kept prebuilt step |
| NightOrder.SetupStepsFirstNightOnly | src/constants/nightInfo.ts:30-51 | `minion_info` and `demon_info` are woken on the first night only |
| NightOrder.TiesKeepInputOrder | src/features/helper/services/nightOrderService.ts:15 | entries with equal numbers keep their order: prebuilt steps first, then the characters in script order |
| PdfData.TeamOf | translations-tooling/pdf_gen/constants.py:40 | only a string naming one of the five teams has a team |
| PdfData.FirstMetaItem | translations-tooling/pdf_gen/data_processor.py:25-28 | the result is a meta item of the input, and there is none exactly when no item has id `_meta` |
| PdfData.FirstMetaItemIsFirst | translations-tooling/pdf_gen/data_processor.py:25-28 | no meta item comes before the one chosen |
| PdfData.ExtractMetaData | translations-tooling/pdf_gen/data_processor.py:23-37 | without a meta item the script is "Unknown" with no author; otherwise its name (default empty) and author |
| PdfData.CharacterTeam | translations-tooling/pdf_gen/data_processor.py:45-51 | an item becomes a character only when it is non-empty, not the meta item, and has a valid team |
| PdfData.MakeCharacter | translations-tooling/pdf_gen/data_processor.py:54-60 | missing id defaults to empty, missing name and ability to "N/A", the image is optional |
| PdfData.ExtractedCharactersKept | translations-tooling/pdf_gen/data_processor.py:40-66 | one character per character item, none per other item, and never the meta id |
| PdfData.ExtractCharacters | translations-tooling/pdf_gen/data_processor.py:40-66 | the loop yields exactly the characters of the items, in input order |
| PdfData.ValidateAndProcessData | translations-tooling/pdf_gen/data_processor.py:12-20 | fails exactly on empty input; otherwise the meta data and the characters |
| PdfData.OfTeamEmpty | translations-tooling/pdf_gen/data_processor.py:78-84 | a team's group is empty exactly when no character is on that team |
| PdfData.OfTeamCount | translations-tooling/pdf_gen/data_processor.py:78-79 | each character lands in its own team's group as often as it occurs, and in no other |
| PdfData.SectionsOrdered | translations-tooling/pdf_gen/data_processor.py:83-88 | the sections follow `TeamType` order, each team at most once |
| PdfData.SectionPresent | translations-tooling/pdf_gen/data_processor.py:83-88 | a team has a section exactly when some character is on it |
| PdfData.SectionsPartition | translations-tooling/pdf_gen/data_processor.py:69-90 | grouping is a partition: the sections together hold exactly the input characters |
| PdfData.GroupsOf | translations-tooling/pdf_gen/data_processor.py:71-79 | after the first two loops every team maps to its characters in input order |
| PdfData.GroupCharactersByTeam | translations-tooling/pdf_gen/data_processor.py:69-90 | the method returns the non-empty team sections in `TeamType` order |
| PublicScripts.PublicScript.Keys | translations-tooling/generate_public_scripts_json_from_csv.py:107-136 | the seven base keys come first, in insertion order; the optional keys are present exactly when their field is set |
| PublicScripts.ItemId | translations-tooling/generate_public_scripts_json_from_csv.py:60-63 | only an object whose `id` is a non-empty string has an id |
| PublicScripts.ScriptsById | translations-tooling/generate_public_scripts_json_from_csv.py:58-66 | every key of the index is a non-empty id |
| PublicScripts.LastWithIdIsLast | translations-tooling/generate_public_scripts_json_from_csv.py:59-64 | the entry found for an id is an item with that id, and no later item carries it |
| PublicScripts.ScriptsByIdLast | translations-tooling/generate_public_scripts_json_from_csv.py:59-64 | an id is indexed exactly when some item carries it, and later duplicates overwrite earlier ones |
| PublicScripts.ScriptsByIdAbsent | translations-tooling/generate_public_scripts_json_from_csv.py:59-64 | an id is missing exactly when no item carries it; non-objects and items without a usable id are skipped |
| PublicScripts.LastWithIdNone | translations-tooling/generate_public_scripts_json_from_csv.py:59-64 | when no item is found for an id, none carries it |
| PublicScripts.LoadExistingScripts | translations-tooling/generate_public_scripts_json_from_csv.py:50-66 | a missing file gives `{}`, a non-array is an error, an array gives its items indexed by id |
| PublicScripts.Background | translations-tooling/generate_public_scripts_json_from_csv.py:134-136 | `background` is kept only when it is a string that is not blank, and then unchanged |
| PublicScripts.BuildScriptRow | translations-tooling/generate_public_scripts_json_from_csv.py:94-138 | no entry exactly when the cleaned id is empty; otherwise the cleaned fields, `logo` only when non-empty, `teensyville` only when it parses as true, `official` by the CSV, then the existing entry, then the known ids, and the existing non-blank `background` |
| PublicScripts.OfficialFromCsv | translations-tooling/generate_public_scripts_json_from_csv.py:120-128 | a CSV `official` value that parses decides the flag |
| PublicScripts.OfficialFromExisting | translations-tooling/generate_public_scripts_json_from_csv.py:121-123 | otherwise the existing entry's `official` decides, by Python truthiness |
| PublicScripts.KnownOfficialMembers | translations-tooling/generate_public_scripts_json_from_csv.py:14 | the known official ids are exactly the three base editions |
| PublicScripts.OfficialByDefault | translations-tooling/generate_public_scripts_json_from_csv.py:124-125 | with neither, exactly the three base editions are official |
| PublicScripts.TeensyvilleNotInherited | translations-tooling/generate_public_scripts_json_from_csv.py:130-132 | `teensyville` never comes from the existing file |
| PublicScripts.GenerateScripts | translations-tooling/generate_public_scripts_json_from_csv.py:141-153 | a non-array existing file is an error; otherwise one entry per row built against its own existing entry |
| PublicScripts.GeneratedFollowsRows | translations-tooling/generate_public_scripts_json_from_csv.py:146-151 | the entries follow the CSV rows in order, dropping exactly the rows whose cleaned id is empty |
| RoleId.PrefixLength | src/utils/normalizeRoleId.ts:1 | the matched prefix never runs past the end of the id |
| RoleId.NormalizeRoleId | src/utils/normalizeRoleId.ts:1-3 | the result is a suffix of the id |
| RoleId.UnprefixedUnchanged | src/utils/normalizeRoleId.ts:1 | an id that starts with neither `kokr` nor `ko_KR` is unchanged |
| RoleId.PrefixRemoved | src/utils/normalizeRoleId.ts:1 | either prefix is removed, with one following `_` when there is one |
| RoleId.OnlyFirstPrefixRemoved | src/utils/normalizeRoleId.ts:1 | only the first prefix is removed, so normalising twice can differ from normalising once |
| RoleId.OneSeparatorRemoved | src/utils/normalizeRoleId.ts:1 | at most one `_` after the prefix is removed |
| Routes.BuildPageByHash | src/constants/routes.ts:10-18 | the `reduce` yields the table of its entries |
| Routes.PageByHashKeys | src/constants/routes.ts:10-18 | every key is `#` followed by the non-empty hash of an entry, and maps to that entry's page |
| Routes.PageByHashTableValue | src/constants/routes.ts:3-18 | the table is exactly `#savant-generator`, `#helper` and `#tracker` mapped to their pages |
| Routes.HashFromPageType | src/constants/routes.ts:20 | `hashFromPageType`: the page's hash; `HashByPageMatches` and `HashesDistinct` are about it |
| Routes.PageTypeFromHash | src/constants/routes.ts:22 | `pageTypeFromHash`: the table's page, an inherited member, or the scripts page; `PageRoundTrip`, `UnknownHashIsScripts`, `InheritedNameIsNoPage` and `LocationHashIsPage` state which |
| Routes.HashByPageMatches | src/constants/routes.ts:3-20 | `hashFromPageType` agrees with the page-to-hash table |
| Routes.HashesDistinct | src/constants/routes.ts:3-20 | different pages have different hashes |
| Routes.PageRoundTrip | src/constants/routes.ts:10-22 | `#` followed by a page's hash leads back to that page, the scripts page included |
| Routes.TableShape | src/constants/routes.ts:10-18 | the table never maps to the scripts page, and its keys all start with `#` |
| Routes.UnknownHashIsScripts | src/constants/routes.ts:22 | a hash that is neither `#` plus a page's hash nor a property name inherited from `Object.prototype` leads to the scripts page |
| Routes.InheritedNameIsNoPage | src/constants/routes.ts:17-22 | a property name inherited by the object literal, such as `constructor`, gives the inherited member instead of a page |
| Routes.LocationHashIsPage | src/constants/routes.ts:22 | an empty hash or one starting with `#`, as a URL hash is, always leads to a page |
| Savant.IndexOf | src/components/SavantProposition.tsx:21 | `indexOf` gives the first position of the proposition, or `-1` exactly when it is absent |
| Savant.NextIndexInRange | src/components/SavantProposition.tsx:21-23 | the next index is a valid index and never the current one |
| Savant.AbsentUsesDraw | src/components/SavantProposition.tsx:23 | when the shown proposition is not in the list, the draw is used as it is |
| Savant.NextIndexInjective | src/components/SavantProposition.tsx:22-23 | different draws give different indices, so every other proposition is equally likely |
| Savant.NextIndexReachesAll | src/components/SavantProposition.tsx:22-23 | every index other than the current one is reached by some draw |
| Savant.SavantGenerator.constructor | src/components/SavantProposition.tsx:14 | the first proposition is shown at the start |
| Savant.SavantGenerator.GenerateNewProposition | src/components/SavantProposition.tsx:16-25 | with at most one proposition nothing changes; otherwise the proposition at the next index is shown, and with distinct propositions it differs from the one before |
| ScriptActions.Initial | src/features/scripts/hooks/useScriptActions.ts:25-27 | nothing is copied or downloading, no timer is pending and no notice is shown |
| ScriptActions.ActionOutcome | src/features/scripts/hooks/useScriptActions.ts:9-22 | `runScriptAction` reports whether the action succeeded; a failure logs its context and shows one notice, success changes nothing |
| ScriptActions.WithCopiedLabel | src/features/scripts/hooks/useScriptActions.ts:38-48 | the script is marked copied and any pending clear timer is replaced by one fresh timer for it |
| ScriptActions.Step | src/features/scripts/hooks/useScriptActions.ts:29-84 | each event's effect: a copy marks the script or clears the mark on failure, a JSON download leaves both marks, a PDF download marks its script and its end clears only its own mark, a live timer clears only the label it captured, unmount cancels the timer; at most one timer stays live |
| ScriptActions.RunKeepsOneTimer | src/features/scripts/hooks/useScriptActions.ts:27-48 | from the first render on, at most one clear timer is live |
| ScriptActions.CopiedLabelExpires | src/features/scripts/hooks/useScriptActions.ts:45-47 | the timer of a copy clears the label when nothing was copied since |
| ScriptActions.RecopyKeepsNewLabel | src/features/scripts/hooks/useScriptActions.ts:41-47 | a second copy cancels the first copy's timer, so the second label stays |
| ScriptActions.OverlappingPdfDownloads | src/features/scripts/hooks/useScriptActions.ts:76-83 | the earlier of two overlapping PDF downloads finishing does not clear the later one's mark |
| ScriptActions.NoticesCountFailures | src/features/scripts/hooks/useScriptActions.ts:9-84 | every failed action shows exactly one notice and successful ones none |
| ScriptActions.ScriptActionsHook.constructor | src/features/scripts/hooks/useScriptActions.ts:25-27 | the hook starts in the initial state |
| ScriptActions.ScriptActionsHook.RunScriptAction | src/features/scripts/hooks/useScriptActions.ts:9-22 | the hook's new state and result are those of `ActionOutcome` |
| ScriptActions.ScriptActionsHook.SetCopiedLabel | src/features/scripts/hooks/useScriptActions.ts:38-48 | the hook's new state is that of `WithCopiedLabel` |
| ScriptActions.ScriptActionsHook.OnCopyJson | src/features/scripts/hooks/useScriptActions.ts:50-66 | the hook's new state is that of a copy event |
| ScriptActions.ScriptActionsHook.OnDownloadJson | src/features/scripts/hooks/useScriptActions.ts:68-74 | the hook's new state is that of a JSON download event |
| ScriptActions.ScriptActionsHook.StartPdfDownload | src/features/scripts/hooks/useScriptActions.ts:76-77 | the hook's new state is that of the start of a PDF download |
| ScriptActions.ScriptActionsHook.FinishPdfDownload | src/features/scripts/hooks/useScriptActions.ts:79-83 | the hook's new state is that of the end of a PDF download |
| ScriptActions.ScriptActionsHook.FireCopiedTimer | src/features/scripts/hooks/useScriptActions.ts:45-47 | the hook's new state is that of its timer firing |
| ScriptActions.ScriptActionsHook.Unmount | src/features/scripts/hooks/useScriptActions.ts:29-36 | the hook's new state is that of unmounting |
| ScriptCategories.BuildScriptCategories | src/features/scripts/services/scriptCategoryService.ts:16-37 | the three groups, in page order, hold the official scripts, the community scripts and the other Teensyville scripts, each in input order |
| ScriptCategories.GroupsPartitionScripts | src/features/scripts/services/scriptCategoryService.ts:17-30 | every script is in exactly one group: together the groups are the scripts, each as often as it occurs |
| ScriptCategories.GroupOfScript | src/features/scripts/services/scriptCategoryService.ts:19-25 | an official script goes to the official group even when it is a Teensyville script; other Teensyville scripts to theirs; the rest to the community group |
| ScriptCategories.GroupsKeepOrder | src/features/scripts/services/scriptCategoryService.ts:17-30 | grouping two lists one after the other puts the first list's scripts first in every group |
| Sorting.Sort | src/features/helper/services/nightOrderService.ts:15 | `Array.prototype.sort` returns a permutation of its input |
| Sorting.SortSorted | src/features/helper/services/nightOrderService.ts:15 | under a comparator that induces a total preorder the result is ordered |
| Sorting.SortStable | src/features/helper/services/nightOrderService.ts:15 | the sort is stable: elements that compare equal keep their input order |
| TransientValue.Initial | src/hooks/useTransientValue.ts:10-11 | no value is shown and no timeout is pending |
| TransientValue.CancelPending | src/hooks/useTransientValue.ts:13-18 | `clearTimeoutIfNeeded` cancels the pending timeout and keeps the value |
| TransientValue.Step | src/hooks/useTransientValue.ts:20-38 | `show` sets the value and leaves one fresh timeout; `clear` empties everything; a live timeout clears only the value it captured; at most one timeout stays pending |
| TransientValue.RunKeepsOnePending | src/hooks/useTransientValue.ts:11-36 | from the first render on at most one timeout is pending |
| TransientValue.ShownValueExpires | src/hooks/useTransientValue.ts:26-33 | a value shown and left alone is cleared when its own timeout fires |
| TransientValue.ReshowCancelsEarlierTimeout | src/hooks/useTransientValue.ts:26-33 | showing again cancels the earlier timeout, so it cannot clear the newer value |
| TransientValue.TransientHolder.constructor | src/hooks/useTransientValue.ts:10-11 | the hook starts in the initial state |
| TransientValue.TransientHolder.ClearTimeoutIfNeeded | src/hooks/useTransientValue.ts:13-18 | the hook's new state is that of `CancelPending` |
| TransientValue.TransientHolder.Clear | src/hooks/useTransientValue.ts:20-38 | the hook's new state is that of a clear |
| TransientValue.TransientHolder.Show | src/hooks/useTransientValue.ts:25-36 | the hook's new state is that of a show, and the new timeout's handle is returned |
| TransientValue.TransientHolder.Fire | src/hooks/useTransientValue.ts:30-33 | the hook's new state is that of its timeout firing |
| Urls.TrimTrailingSlashes | src/constants/urls.ts:4-7 | only the trailing run of slashes is removed: the result is a prefix, does not end in `/`, and only slashes were dropped |
| Urls.TranslationsRawBase | src/constants/urls.ts:4-7 | the base never ends in `/` |
| Urls.UnsetBaseIsDefault | src/constants/urls.ts:4 | an unset or empty setting gives the default base |
| Urls.RebaseUnmatched | src/constants/urls.ts:15-21 | a URL that starts with no remote base is left as it is |
| Urls.RebaseForm | src/constants/urls.ts:15-21 | the result is the URL itself or starts with the configured base |
| Urls.RebaseLeavesNoRemote | src/constants/urls.ts:15-21 | with a base independent of the remote copies, no remote base is left at the head of the result |
| Urls.RemoteBasesDiverge | src/constants/urls.ts:9-13 | a URL starts with at most one of the remote bases |
| Urls.RebaseMatched | src/constants/urls.ts:15-21 | a URL on a remote base is moved onto the configured base, keeping the rest of the URL |
| Urls.NormalizeTranslationUrl | src/constants/urls.ts:15-21 | `normalizeTranslationUrl`: the reduce over the three remote bases; `RemoteUrlRebased`, `OtherUrlUnchanged` and `NormalizeIdempotent` state its effect |
| Urls.RemoteUrlRebased | src/constants/urls.ts:9-21 | `normalizeTranslationUrl` on a remote URL gives the configured base followed by the rest |
| Urls.OtherUrlUnchanged | src/constants/urls.ts:15-21 | any other URL is returned as it is |
| Urls.NormalizeIdempotent | src/constants/urls.ts:15-21 | normalising twice is normalising once |
| Urls.DefaultBaseIndependent | src/constants/urls.ts:1-13 | the default base is not one of the remote copies |
| Urls.BuildScriptJsonUrl | src/constants/urls.ts:23-24 | `buildScriptJsonUrl`: the script's JSON under the base; `BuildersInjective` and `BuiltUrlsNormalized` are about it |
| Urls.BuildScriptPdfUrl | src/constants/urls.ts:26-27 | `buildScriptPdfUrl`: the script's PDF under the base; `BuildersInjective` and `BuiltUrlsNormalized` are about it |
| Urls.BuildScriptImageUrl | src/constants/urls.ts:29-30 | `buildScriptImageUrl`: the image under the base; `BuildersInjective` and `BuiltUrlsNormalized` are about it |
| Urls.BuildersInjective | src/constants/urls.ts:23-30 | different scripts and images get different URLs |
| Urls.BuiltUrlsNormalized | src/constants/urls.ts:15-30 | a built URL is already normalised |
| SheetIssues.Report.Merge | translations-tooling/validate_google_sheet_csv.py:56-59 | each list of the other result is appended, in order, to the matching list |
| SheetIssues.IssueReport | translations-tooling/validate_google_sheet_csv.py:94-98 | `add_issue` records one error when asked to, otherwise one warning |
| SheetIssues.MergeMembers | translations-tooling/validate_google_sheet_csv.py:56-59 | a finding is in a merged result exactly when it is in one of the two parts |
| SheetIssues.MergeAssociative | translations-tooling/validate_google_sheet_csv.py:56-59 | merging is associative, so the order of merges into `main`'s result does not matter, only the order of the parts |
| SheetIssues.MergeEmpty | translations-tooling/validate_google_sheet_csv.py:50-59 | the empty result is neutral for merging |
| SheetIssues.MergeMapErrorFree | translations-tooling/validate_google_sheet_csv.py:56-59 | a merged result is free of errors exactly when every part is |
| SheetIssues.MergeParts | translations-tooling/validate_google_sheet_csv.py:107-155 | the findings `read_csv` appends one by one equal merging its parts in order |
| SheetIssues.ValidationResult.constructor | translations-tooling/validate_google_sheet_csv.py:50-54 | a new result has no errors, warnings or infos |
| SheetIssues.ValidationResult.Snapshot | translations-tooling/validate_google_sheet_csv.py:50-54 | the value of the accumulator is its three lists |
| SheetIssues.ValidationResult.Merge | translations-tooling/validate_google_sheet_csv.py:56-59 | merging in place extends the three lists as `Report.Merge` does |
| SheetHeaders.SortedSet | translations-tooling/validate_google_sheet_csv.py:169-179 | `sorted(set(...))`: the same values, each once, in ascending order |
| SheetHeaders.HeaderErrors | translations-tooling/validate_google_sheet_csv.py:170-181 | one error per header, in the order of the headers |
| SheetHeaders.HeaderErrorsFacts | translations-tooling/validate_google_sheet_csv.py:169-181 | over a sorted set, a header is named exactly when it is in the set, once and in order |
| SheetHeaders.AppendHeaderErrors | translations-tooling/validate_google_sheet_csv.py:170-181 | the loop appends exactly those errors |
| SheetHeaders.EnsureRequiredHeaders | translations-tooling/validate_google_sheet_csv.py:165-172 | one error per required header absent from the file, each once, in sorted order; none exactly when all are present |
| SheetHeaders.ValidateKnownHeaders | translations-tooling/validate_google_sheet_csv.py:175-182 | one error per distinct header outside the known set, each once, in sorted order; none exactly when all are known |
| SheetReader.SanitizeHeaders | translations-tooling/validate_google_sheet_csv.py:120 | every header is sanitised, position by position |
| SheetReader.ColumnReport | translations-tooling/validate_google_sheet_csv.py:121-130 | a column is reported empty exactly when its sanitised header is empty; a changed header is reported as normalised, an error only under the flag |
| SheetReader.ColumnNormalized | translations-tooling/validate_google_sheet_csv.py:125-130 | a header changed (and not emptied) by sanitising is reported, as an error under the flag and as a warning otherwise |
| SheetReader.DuplicateErrors | translations-tooling/validate_google_sheet_csv.py:133-134 | one error per duplicated header value |
| SheetReader.AddCell | translations-tooling/validate_google_sheet_csv.py:140-151 | a cell adds at most a non-empty key to the row and at most a control-character finding for its line, an error only under the flag |
| SheetReader.CellsSpec | translations-tooling/validate_google_sheet_csv.py:139-151 | a row holds only non-empty keys, and its findings are control-character findings for its line |
| SheetReader.CellsSpecStep | translations-tooling/validate_google_sheet_csv.py:140-151 | reading one more cell applies `AddCell` |
| SheetReader.RowsSpec | translations-tooling/validate_google_sheet_csv.py:137-152 | one row per data record, numbered from line 2, with only control-character findings |
| SheetReader.DedupStep | translations-tooling/validate_google_sheet_csv.py:158-162 | a value joins the key order of the counts exactly when it is new |
| SheetReader.CountStep | translations-tooling/validate_google_sheet_csv.py:160-161 | one more value raises its count by one, starting from one when it is new |
| SheetReader.CountDuplicates | translations-tooling/validate_google_sheet_csv.py:158-162 | each value's count is how often it occurs; keys are the values, in order of first occurrence |
| SheetReader.CheckHeaders | translations-tooling/validate_google_sheet_csv.py:121-130 | the header loop yields the column findings, left to right |
| SheetReader.FindDuplicates | translations-tooling/validate_google_sheet_csv.py:132 | the duplicated headers are the values counted more than once, in order of first occurrence |
| SheetReader.ReadRow | translations-tooling/validate_google_sheet_csv.py:139-151 | the inner loop over one `DictReader` row yields `CellsSpec` |
| SheetReader.ReadRows | translations-tooling/validate_google_sheet_csv.py:137-152 | the row loop yields `RowsSpec` |
| SheetReader.ReadCsv | translations-tooling/validate_google_sheet_csv.py:101-155 | a missing file and a file without a header row give one error and nothing else; otherwise headers, rows and the findings in the order `read_csv` appends them |
| SheetReader.HeaderReportKinds | translations-tooling/validate_google_sheet_csv.py:121-130 | header findings are only empty or normalised headers, normalisation an error exactly under the flag, and no infos |
| SheetReader.HeaderReportStep | translations-tooling/validate_google_sheet_csv.py:121-130 | the report of all columns is that of all but the last, then the last column's |
| SheetReader.HeaderReportPrefixStep | translations-tooling/validate_google_sheet_csv.py:121-130 | the report of the first `i + 1` columns extends that of the first `i` |
| SheetReader.HeaderReportEmptyColumns | translations-tooling/validate_google_sheet_csv.py:121-124 | column `i` (from 1) is reported empty exactly when its sanitised header is empty |
| SheetReader.HeaderReportNormalized | translations-tooling/validate_google_sheet_csv.py:125-130 | every header changed by sanitising and not emptied is reported |
| SheetReader.ErrorInMerge | translations-tooling/validate_google_sheet_csv.py:56-59 | an error is in a merged report exactly when it is in either part |
| SheetReader.FoundInMerge | translations-tooling/validate_google_sheet_csv.py:56-59 | a finding of either part stays one in the merged report |
| SheetReader.DuplicateErrorsCount | translations-tooling/validate_google_sheet_csv.py:133-134 | a header is reported as duplicated as often as it appears in the duplicate list |
| SheetReader.DuplicateErrorsKinds | translations-tooling/validate_google_sheet_csv.py:133-134 | those errors are all duplicated-header errors |
| SheetReader.DuplicateErrorsAt | translations-tooling/validate_google_sheet_csv.py:133-134 | the `k`-th error names the `k`-th duplicate |
| SheetReader.DuplicatedHeadersOnce | translations-tooling/validate_google_sheet_csv.py:132-134 | each header value occurring more than once is reported exactly once, and no other |
| SheetReader.ReadCsvReport | translations-tooling/validate_google_sheet_csv.py:107-155 | the errors are the header errors, then the duplicates, then the row errors; the warnings the header then row warnings; one info with the row count |
| SheetReader.ReadCsvEmptyHeaders | translations-tooling/validate_google_sheet_csv.py:121-124 | `read_csv` reports column `i` as empty exactly when its sanitised header is empty |
| SheetReader.ReadCsvDuplicatedHeaders | translations-tooling/validate_google_sheet_csv.py:132-134 | `read_csv` reports each header value occurring more than once in exactly one error |
| SheetRows.Cell | translations-tooling/validate_google_sheet_csv.py:189 | `row.get(key)` is present exactly when the row has that column |
| SheetRows.FirstLine | translations-tooling/validate_google_sheet_csv.py:187-198 | the empty id never has a first line |
| SheetRows.FindingDuplicates | translations-tooling/validate_google_sheet_csv.py:191-203 | a row's findings hold a duplicate of a non-empty id exactly when the row carries it and an earlier row did |
| SheetRows.FindingEmptyIds | translations-tooling/validate_google_sheet_csv.py:190-194 | a row's findings report an empty id exactly when its id is empty and it holds data |
| SheetRows.SeenStep | translations-tooling/validate_google_sheet_csv.py:196-199 | after one more row, `seen` still maps exactly the non-empty ids met so far to the line of their first row |
| SheetRows.SeenLookup | translations-tooling/validate_google_sheet_csv.py:196-197 | before a row is added, `seen` knows its id exactly when an earlier row carried it, and gives that row's line |
| SheetRows.SeenUpdate | translations-tooling/validate_google_sheet_csv.py:196-199 | the bookkeeping of `seen` over one more row |
| SheetRows.UniqueIdErrorsStep | translations-tooling/validate_google_sheet_csv.py:188-203 | the id findings after one more row are those before it, then the row's own |
| SheetRows.FirstLineStep | translations-tooling/validate_google_sheet_csv.py:196-199 | the first line of an id after one more row is the earlier one, or this row's when it is the first with that id |
| SheetRows.ValidateUniqueIds | translations-tooling/validate_google_sheet_csv.py:185-204 | `validate_unique_ids` yields exactly the id findings, all as errors |
| SheetRows.FirstLineExists | translations-tooling/validate_google_sheet_csv.py:196-199 | a non-empty id has a first line exactly when some row carries it |
| SheetRows.UniqueIdCitesFirstLine | translations-tooling/validate_google_sheet_csv.py:201-203 | every duplicated-id error cites the line where that id first appeared |
| SheetRows.IssueCitesFirstLine | translations-tooling/validate_google_sheet_csv.py:196-203 | a row's own duplicate finding cites the first line of its id among the rows before it |
| SheetRows.UniqueIdDuplicates | translations-tooling/validate_google_sheet_csv.py:185-204 | among the rows sharing a non-empty id, the first is never reported and each later one exactly once |
| SheetRows.RowDuplicates | translations-tooling/validate_google_sheet_csv.py:196-203 | a row adds a duplicate finding for an id exactly when it carries it and an earlier row did |
| SheetRows.UniqueIdEmptyIds | translations-tooling/validate_google_sheet_csv.py:190-194 | an empty id is reported exactly for the rows that still hold some data |
| SheetRows.CheckNightOrders | translations-tooling/validate_google_sheet_csv.py:220-225 | the inner loop yields one warning per night column whose value is neither empty nor a number |
| SheetRows.CheckCharacterRow | translations-tooling/validate_google_sheet_csv.py:210-225 | the loop body yields the row's team and night-order warnings |
| SheetRows.ValidateCharacterRows | translations-tooling/validate_google_sheet_csv.py:207-227 | `validate_character_rows` yields warnings only, never an error or an info |
| SheetRows.CharacterRowWarningsNone | translations-tooling/validate_google_sheet_csv.py:210-225 | a characters row draws no warning exactly when its id is empty, or its team is empty or allowed and its night orders are empty or numeric |
| SheetRows.NightWarningsNone | translations-tooling/validate_google_sheet_csv.py:220-225 | no night-order warning exactly when every night column is empty or numeric |
| SheetRows.CharacterWarningsNone | translations-tooling/validate_google_sheet_csv.py:207-227 | the characters file draws no warning exactly when every row is clean |
| SheetRows.AllowedPrefixes | translations-tooling/validate_google_sheet_csv.py:46 | a path has an allowed prefix exactly when it starts with `/`, `https://` or `http://` |
| SheetRows.PathReport | translations-tooling/validate_google_sheet_csv.py:245-271 | the only warning of a path check is a missing suffix, and there is no info |
| SheetRows.EmptyFieldErrors | translations-tooling/validate_google_sheet_csv.py:241-243 | no required-field error exactly when every required column is non-empty |
| SheetRows.BoolErrors | translations-tooling/validate_google_sheet_csv.py:273-281 | no boolean error exactly when no boolean column holds a bad value |
| SheetRows.ScriptRowReport | translations-tooling/validate_google_sheet_csv.py:232-281 | the only warnings of a scripts row are missing suffixes, and there is no info |
| SheetRows.ScriptRowErrors | translations-tooling/validate_google_sheet_csv.py:232-281 | a scripts row is free of errors exactly when its id is empty, or it matches `^[a-z0-9_]+$`, has every required field, paths without whitespace and with an allowed prefix, and valid booleans |
| SheetRows.PathReportErrors | translations-tooling/validate_google_sheet_csv.py:245-271 | a path draws no error exactly when it has no whitespace and, when present, an allowed prefix |
| SheetRows.CheckRequiredFields | translations-tooling/validate_google_sheet_csv.py:241-243 | the loop yields one error per required column that is empty |
| SheetRows.CheckBooleans | translations-tooling/validate_google_sheet_csv.py:273-281 | the loop yields one error per present boolean column with a non-empty value that does not parse |
| SheetRows.CheckScriptRow | translations-tooling/validate_google_sheet_csv.py:233-281 | the loop body yields the row's findings in the order the source appends them |
| SheetRows.ValidateScriptRows | translations-tooling/validate_google_sheet_csv.py:230-283 | `validate_script_rows` merges every row's findings, in row order |
| SheetRows.ScriptRowsErrors | translations-tooling/validate_google_sheet_csv.py:230-283 | the scripts file draws no row error exactly when every row is valid |
| SheetMain.Effective | translations-tooling/validate_google_sheet_csv.py:349-354 | `--strict` switches on the three stricter flags; without it the flags are as given; no flag is ever switched off |
| SheetMain.ExitCode | translations-tooling/validate_google_sheet_csv.py:361-398 | the exit status is 0 or 1 |
| SheetMain.RunChecks | translations-tooling/validate_google_sheet_csv.py:373-391 | the header checks, the id checks and the target's row checks are merged into the result in that order |
| SheetMain.Validation | translations-tooling/validate_google_sheet_csv.py:361-391 | the merged result of the targets not skipped; `RunValidation` and the lemmas below state its use |
| SheetMain.ValidateTarget | translations-tooling/validate_google_sheet_csv.py:365-391 | a target adds its load report and, only when a header row was read, its checks |
| SheetMain.RunValidation | translations-tooling/validate_google_sheet_csv.py:357-398 | `main` returns the merged findings of the targets not skipped and the exit status they call for |
| SheetMain.ExitCodeZero | translations-tooling/validate_google_sheet_csv.py:361-398 | a run succeeds exactly when some target is validated, there is no error, and warnings are allowed or absent |
| SheetMain.StrictSuccessIsClean | translations-tooling/validate_google_sheet_csv.py:344-397 | under `--strict` a successful run saw neither errors nor warnings |
| SheetMain.MissingCharactersFails | translations-tooling/validate_google_sheet_csv.py:361-398 | a missing characters file fails the run unless that target is skipped |
| SheetMain.MissingScriptsFails | translations-tooling/validate_google_sheet_csv.py:379-398 | a missing scripts file fails the run unless that target is skipped |
| SheetMain.SkippedScriptsIgnored | translations-tooling/validate_google_sheet_csv.py:379 | a skipped scripts target does not influence the result |
| TrackerApi.BuildGameLog | src/features/tracker/api.ts:87-101 | a log is built exactly when the file has players, its `roles` is not `null` and no role is `null`; its id is the file name and its date comes from that name |
| TrackerApi.MapOrFail | src/features/tracker/api.ts:86-107 | a `map` whose callback may throw gives every result in order, or nothing when some call throws |
| TrackerApi.MapOrFailAppend | src/features/tracker/api.ts:87 | mapping one more element appends its result |
| TrackerApi.BuildGameLogs | src/features/tracker/api.ts:87-101 | the logs of all entries in order, or nothing exactly when some file cannot be read, in particular when some file has `"roles": null` |
| TrackerApi.FetchGameLogs | src/features/tracker/api.ts:84-107 | `fetchGameLogs`: the logs of `BuildGameLogs`, or `[]` from the `catch`; its properties are `OneLogPerEntry`, `ErrorGivesNoLogs` and `NullRolesGiveNoLogs` |
| TrackerApi.BuildGameLogsAppend | src/features/tracker/api.ts:87-101 | loading one more entry appends its log |
| TrackerApi.OneLogPerEntry | src/features/tracker/api.ts:85-103 | when every file can be read (players present, `roles` not `null`, no `null` role) there is one log per entry, in the glob's order, with the file name as id |
| TrackerApi.ErrorGivesNoLogs | src/features/tracker/api.ts:85-107 | a file that throws empties the whole result |
| TrackerApi.NullRolesGiveNoLogs | src/features/tracker/api.ts:21-25 | a file with `"roles": null` makes `buildRoleMetadata` throw (its default applies only to a missing value), so no log at all is returned |
| TrackerApi.DatedLog | src/features/tracker/api.ts:58-90 | a file named `YYYYMMDD...` in any directory has that name as id and that date |
| TrackerApi.RawFieldsKept | src/features/tracker/api.ts:87-101 | the saved fields are kept; the players are the saved ones, in order, with only their role's name and icon added |
| TrackerApi.DemonSetIsDemonTeam | src/features/tracker/api.ts:21-43 | the demon set is exactly the ids of the roles whose team string is `demon`, the same under the unchecked cast as under a checked team |
| TrackerApi.WinnerRule | src/features/tracker/api.ts:68-99 | `good` in the file name decides first, then `evil`, otherwise evil exactly when some alive player holds a role defined as a demon |

## Left out

- User interface and rendering: the React components, charts, dialogs and layout. Their counting, grouping and selection rules are modelled through the hooks and services above.
- PDF drawing (`pdf_generator.py`, `table_builder.py`, `footer_handler.py`, `PDFGenerator.tsx`): these are layout and image calls with floating-point geometry. Only the data pre-processing is modelled.
- Message wording: findings, notices and log lines are datatype values. The file-path prefix, the text and the printing (`print_result`, `logging`, `console.error`) are not modelled.
- Python's `csv` tokenisation and file handling: the header record and the `DictReader` cells are inputs, and a missing file or a file without a header row is a case of `SheetReader.CsvSource`. For `iter_csv_rows` of the public-scripts generator, the rows are an input already reduced to non-empty sanitised keys.
- `parse_args` of both Python command lines: the options are a record. Only the effect of `--strict` is modelled (`SheetMain.Effective`).
- Files: the sanitizer's file system is a map from path to decoded text. Encoding errors and write failures are not modelled.
- JSON parsing: parsed values are the `Json` datatype, and object key order is not kept.
- Real time and the event loop: timers are explicit events that fire or not, and the 1000 ms delay and the back-off delays are values, not waits. Overlapping `await`s are modelled only where an event splits them (`AsyncData.Reload`/`Settle`, `ScriptActions` start and end of a PDF download).
- Randomness: `Math.random` is replaced by the index it yields (`Savant`).
- `localeCompare`: the collation is a parameter `rank` from strings to numbers, so it is a total preorder. ICU collation itself is not modelled.
- `import.meta.glob`, `getRoleIconUrl`, the bundled icon files, local storage, whether a browser window exists, and `VITE_TRANSLATIONS_BASE` are parameters.
- `isHelperScriptMeta` and `isHelperEntry` are parameters of `HelperScriptService`, because they are type guards whose bodies are not part of this model.
- React memoisation and re-rendering: `useMemo` and `useCallback` results are recomputed from their inputs.
- JavaScript numbers are `real` (night order numbers, alignment index) or `int` where only integers occur. `NaN` and infinities are not modelled.
- Strings are sequences of code points. There is no UTF-16 surrogate handling and no Unicode normalisation.
- SheetRows.CharacterRowWarningsNone: a numeric night order is `-`s followed by ASCII digits. Python's `isdigit` also accepts other Unicode digits, which this model counts as non-numeric.
- SheetRows.CheckNightOrders: the same ASCII-only numeric test as `CharacterRowWarningsNone`: a night order such as `٣` draws a warning here and none in the source.
- SheetRows.NightWarningsNone: the same ASCII-only numeric test as `CharacterRowWarningsNone`: a night order such as `٣` draws a warning here and none in the source.
- SheetRows.CharacterWarningsNone: the same ASCII-only numeric test as `CharacterRowWarningsNone`: a night order such as `٣` draws a warning here and none in the source.
- SheetRows.CheckCharacterRow: the same ASCII-only numeric test as `CharacterRowWarningsNone`: a night order such as `٣` draws a warning here and none in the source. In addition, the team quoted by its `UnknownTeam` warning is lowered only for `A`-`Z` and the Kelvin sign, where `.lower()` lowers every capital: the team `DÉMON` is quoted as `dÉmon`, where the source quotes `démon`. Whether the warning fires is the same, since only those characters lower into the accepted team words.
- CsvText.ParseOptionalBool: `lower()` is modelled only for the characters it maps to ASCII letters (`A`-`Z` and the Kelvin sign). Those are the only ones that can produce the accepted words.
- LogParser.ReadRoleField: a role definition that is a JSON array or a string is read as having no fields. JavaScript would read its elements under the legacy keys `'0'`, `'1'` and `'12'`.
- A saved `roles` that is neither missing, `null` nor an array, such as a string whose characters `for...of` would visit, is not modelled: `TrackerTypes.RolesField` has those three cases only.
- LogParser.RoleEntry: a `null` role definition is not readable. The loaders treat it as a throw (`ReadableRoles`), and the model does not describe the role map for it.
- CharacterInfoMap.PrefixedIdResolves: proved for `kokr_washerwoman`, the id the source names. A prefixed id in general resolves through `FirstMatchSpec`, whose first match depends on every key before it.
- Urls.NormalizeIdempotent: proved only when the configured base and each remote copy diverge: neither is a prefix of the other. A base such as `/botc` that is a prefix of a remote copy breaks it, since a URL rebased onto it can match that copy on the next pass. The default base is proved to be such a base (`Urls.DefaultBaseIndependent`).
- Savant.SavantGenerator.constructor: requires a non-empty proposition list. The constant list of the site is non-empty, and an empty one would show `undefined`.
- The older `src/components/helper/CharacterDialog.tsx` has its own, shorter information map. It is not merged into `CharacterInfoMap`.
