/**
 * The row checks of the Google Sheets CSV validator: `validate_unique_ids`,
 * `validate_character_rows` and `validate_script_rows`.
 */
module SheetRows {
  import opened Wrappers
  import opened Seqs
  import opened Strings
  import opened CsvText
  import opened SheetIssues
  import opened SheetReader

  /** `row.get(key)`. */
  function Cell(row: Row, key: string): (r: Option<string>)
    ensures r.Some? <==> key in row.cells
  {
    if key in row.cells then Some(row.cells[key]) else None
  }

  /** `clean_text(row.get(key))`. */
  function CleanCell(row: Row, key: string): string {
    CleanText(Cell(row, key))
  }

  /** The cleaned cells of a row, as a function from column name to text. */
  function Fields(row: Row): string -> string {
    key => CleanCell(row, key)
  }

  /** Some cell of the row is non-empty after cleaning. */
  predicate HasData(row: Row) {
    exists key | key in row.cells :: CleanText(Some(row.cells[key])) != ""
  }

  // ---------------------------------------------------------------- validate_unique_ids

  /** The line of the first row among `rows` whose cleaned id is `id` (never for the empty id). */
  function FirstLine(rows: seq<Row>, id: string): (r: Option<int>)
    ensures id == "" ==> r.None?
  {
    if rows == [] then None
    else
      match FirstLine(rows[..|rows| - 1], id)
      case Some(line) => Some(line)
      case None => if id != "" && CleanCell(rows[|rows| - 1], "id") == id then Some(rows[|rows| - 1].line) else None
  }

  /** The id finding for `row`, given the rows before it. */
  function IdIssues(earlier: seq<Row>, row: Row): seq<Issue> {
    var id := CleanCell(row, "id");
    IdFindings(row.line, id, HasData(row), FirstLine(earlier, id))
  }

  /** The id finding for the row at `line` with cleaned id `id`, whose id first appeared at `first`. */
  function IdFindings(line: int, id: string, hasData: bool, first: Option<int>): seq<Issue> {
    if id == "" then (if hasData then [EmptyIdWithData(line)] else [])
    else
      match first
      case None => []
      case Some(f) => [DuplicatedId(line, id, f)]
  }

  /** A row's findings hold a duplicate of `id` exactly when the row carries `id` and an earlier row did. */
  lemma FindingDuplicates(line: int, rowId: string, hasData: bool, first: Option<int>, id: string)
    requires id != ""
    ensures |Filter(IdFindings(line, rowId, hasData, first), x => IsDuplicateOf(x, id))|
         == if rowId == id && first.Some? then 1 else 0
  {
    var p := (x: Issue) => IsDuplicateOf(x, id);
    var issues := IdFindings(line, rowId, hasData, first);
    if rowId == id && first.Some? {
      var dup := DuplicatedId(line, id, first.value);
      assert issues == [dup];
      assert Filter([dup], p) == [dup] + Filter([], p);
    } else {
      assert forall x | x in issues :: !p(x);
      FilterNone(issues, p);
    }
  }

  /** A row's findings report an empty id exactly when the id is empty and the row holds data. */
  lemma FindingEmptyIds(line: int, rowId: string, hasData: bool, first: Option<int>)
    ensures |Filter(IdFindings(line, rowId, hasData, first), (x: Issue) => x.EmptyIdWithData?)|
         == if rowId == "" && hasData then 1 else 0
  {
    var p := (x: Issue) => x.EmptyIdWithData?;
    var issues := IdFindings(line, rowId, hasData, first);
    if rowId == "" && hasData {
      assert issues == [EmptyIdWithData(line)];
      assert Filter(issues, p) == [EmptyIdWithData(line)] + Filter([], p);
    } else {
      assert forall x | x in issues :: !p(x);
      FilterNone(issues, p);
    }
  }

  function UniqueIdErrors(rows: seq<Row>): seq<Issue> {
    if rows == [] then []
    else UniqueIdErrors(rows[..|rows| - 1]) + IdIssues(rows[..|rows| - 1], rows[|rows| - 1])
  }

  /** `seen` maps exactly the non-empty ids of `rows` to the line of their first row. */
  ghost predicate SeenFirstLines(seen: map<string, int>, rows: seq<Row>) {
    SeenMatches(seen, (id: string) => FirstLine(rows, id))
  }

  /** `seen` maps exactly the non-empty ids that `firstLine` knows to the line it gives them. */
  ghost predicate SeenMatches(seen: map<string, int>, firstLine: string -> Option<int>) {
    (forall id | id != "" :: (id in seen <==> firstLine(id).Some?))
    && (forall id | id in seen :: id != "" && firstLine(id) == Some(seen[id]))
  }

  /**
   * One more row: `seen` records its id with its line when the id is new and not empty, and then
   * still maps each id to the line of its first row.
   */
  lemma SeenStep(prefix: seq<Row>, row: Row, seen: map<string, int>)
    requires SeenFirstLines(seen, prefix)
    ensures var rowId := CleanCell(row, "id");
      SeenFirstLines(if rowId != "" && rowId !in seen then seen[rowId := row.line] else seen, prefix + [row])
  {
    var rowId := CleanCell(row, "id");
    var before := (id: string) => FirstLine(prefix, id);
    var after := (id: string) => FirstLine(prefix + [row], id);
    forall id: string
      ensures after(id) == if before(id).Some? then before(id) else if id != "" && rowId == id then Some(row.line) else None
    {
      FirstLineStep(prefix, row, id);
    }
    SeenUpdate(seen, before, after, rowId, row.line);
  }

  /** What `seen` says of a row's id before the row is added: whether and where it appeared first. */
  lemma SeenLookup(prefix: seq<Row>, rowId: string, seen: map<string, int>)
    requires SeenFirstLines(seen, prefix)
    ensures rowId != "" ==> (rowId in seen <==> FirstLine(prefix, rowId).Some?)
    ensures rowId in seen ==> FirstLine(prefix, rowId) == Some(seen[rowId])
  {
  }

  /** The bookkeeping of `SeenStep` over any first-line lookups `before` and `after` one more row. */
  lemma SeenUpdate(seen: map<string, int>, before: string -> Option<int>, after: string -> Option<int>, rowId: string, line: int)
    requires SeenMatches(seen, before)
    requires forall id: string :: after(id) == if before(id).Some? then before(id) else if id != "" && rowId == id then Some(line) else None
    ensures SeenMatches(if rowId != "" && rowId !in seen then seen[rowId := line] else seen, after)
  {
  }

  /** The id findings after one more row: those before it, then the row's own. */
  lemma UniqueIdErrorsStep(prefix: seq<Row>, row: Row)
    ensures UniqueIdErrors(prefix + [row]) == UniqueIdErrors(prefix) + IdIssues(prefix, row)
  {
    assert (prefix + [row])[..|prefix|] == prefix;
  }

  /** The first line of an id after one more row: the earlier one, or this row's when it is the first with that id. */
  lemma FirstLineStep(prefix: seq<Row>, row: Row, id: string)
    ensures FirstLine(prefix + [row], id)
         == if FirstLine(prefix, id).Some? then FirstLine(prefix, id)
            else if id != "" && CleanCell(row, "id") == id then Some(row.line) else None
  {
    assert (prefix + [row])[..|prefix|] == prefix;
  }

  /** `validate_unique_ids`, with `seen` mapping each id met so far to its first line. */
  method ValidateUniqueIds(rows: seq<Row>) returns (result: Report)
    ensures result == Report(UniqueIdErrors(rows), [], [])
  {
    var errors: seq<Issue> := [];
    var seen: map<string, int> := map[];
    for i := 0 to |rows|
      invariant errors == UniqueIdErrors(rows[..i])
      invariant SeenFirstLines(seen, rows[..i])
    {
      var row := rows[i];
      TakeStep(rows, i);
      UniqueIdErrorsStep(rows[..i], row);
      SeenStep(rows[..i], row, seen);
      var rowId := CleanCell(row, "id");
      SeenLookup(rows[..i], rowId, seen);
      if rowId == "" {
        if HasData(row) {
          errors := errors + [EmptyIdWithData(row.line)];
        }
      } else if rowId !in seen {
        seen := seen[rowId := row.line];
      } else {
        errors := errors + [DuplicatedId(row.line, rowId, seen[rowId])];
      }
    }
    assert rows[..|rows|] == rows;
    result := Report(errors, [], []);
  }

  predicate IsDuplicateOf(x: Issue, id: string) {
    x.DuplicatedId? && x.id == id
  }

  /** The rows whose cleaned id is `id`. */
  function RowsWithId(rows: seq<Row>, id: string): nat {
    |Filter(rows, r => CleanCell(r, "id") == id)|
  }

  /** A non-empty id has a first line exactly when some row carries it. */
  lemma {:induction false} FirstLineExists(rows: seq<Row>, id: string)
    requires id != ""
    ensures FirstLine(rows, id).Some? <==> RowsWithId(rows, id) > 0
  {
    if rows != [] {
      FirstLineExists(rows[..|rows| - 1], id);
      FilterLast(rows, r => CleanCell(r, "id") == id);
    }
  }

  /** Every "duplicated id" error cites the line where that id first appeared. */
  lemma {:induction false} UniqueIdCitesFirstLine(rows: seq<Row>, x: Issue)
    requires x in UniqueIdErrors(rows) && x.DuplicatedId?
    ensures FirstLine(rows, x.id) == Some(x.firstLine)
  {
    var init, last := rows[..|rows| - 1], rows[|rows| - 1];
    InitLast(rows);
    UniqueIdErrorsStep(init, last);
    FirstLineStep(init, last, x.id);
    if x in UniqueIdErrors(init) {
      UniqueIdCitesFirstLine(init, x);
    } else {
      IssueCitesFirstLine(init, last, x);
    }
  }

  /** A row's own duplicate finding cites the first line of its id among the rows before it. */
  lemma IssueCitesFirstLine(earlier: seq<Row>, row: Row, x: Issue)
    requires x in IdIssues(earlier, row) && x.DuplicatedId?
    ensures FirstLine(earlier, x.id) == Some(x.firstLine)
  {
  }

  /**
   * Among the rows sharing a non-empty id, the first is never reported and each later one is
   * reported exactly once.
   */
  lemma {:induction false} UniqueIdDuplicates(rows: seq<Row>, id: string)
    requires id != ""
    ensures |Filter(UniqueIdErrors(rows), x => IsDuplicateOf(x, id))| == if RowsWithId(rows, id) == 0 then 0 else RowsWithId(rows, id) - 1
  {
    if rows != [] {
      var init, last := rows[..|rows| - 1], rows[|rows| - 1];
      UniqueIdDuplicates(init, id);
      FirstLineExists(init, id);
      var p := (x: Issue) => IsDuplicateOf(x, id);
      var issues := IdIssues(init, last);
      InitLast(rows);
      UniqueIdErrorsStep(init, last);
      FilterAppend(UniqueIdErrors(init), issues, p);
      FilterLast(rows, r => CleanCell(r, "id") == id);
      var lastId := CleanCell(last, "id");
      assert RowsWithId(rows, id) == RowsWithId(init, id) + (if lastId == id then 1 else 0);
      RowDuplicates(init, last, id);
    }
  }

  /** A row adds a duplicate finding for `id` exactly when it carries `id` and an earlier row did. */
  lemma RowDuplicates(earlier: seq<Row>, row: Row, id: string)
    requires id != ""
    ensures |Filter(IdIssues(earlier, row), x => IsDuplicateOf(x, id))|
         == if CleanCell(row, "id") == id && FirstLine(earlier, id).Some? then 1 else 0
  {
    var rowId := CleanCell(row, "id");
    FindingDuplicates(row.line, rowId, HasData(row), FirstLine(earlier, rowId), id);
  }

  /** An empty id is reported exactly for the rows that still hold some data. */
  lemma {:induction false} UniqueIdEmptyIds(rows: seq<Row>)
    ensures |Filter(UniqueIdErrors(rows), (x: Issue) => x.EmptyIdWithData?)| == |Filter(rows, r => CleanCell(r, "id") == "" && HasData(r))|
  {
    if rows != [] {
      var init, last := rows[..|rows| - 1], rows[|rows| - 1];
      UniqueIdEmptyIds(init);
      InitLast(rows);
      UniqueIdErrorsStep(init, last);
      FilterAppend(UniqueIdErrors(init), IdIssues(init, last), (x: Issue) => x.EmptyIdWithData?);
      FilterLast(rows, r => CleanCell(r, "id") == "" && HasData(r));
      var rowId := CleanCell(last, "id");
      FindingEmptyIds(last.line, rowId, HasData(last), FirstLine(init, rowId));
    }
  }

  // ---------------------------------------------------------------- validate_character_rows

  const AllowedTeams: set<string> := {"townsfolk", "outsider", "minion", "demon", "traveler", "fabled", "jinxes"}
  const NightKeys: seq<string> := ["firstNight", "otherNight"]

  /** `str.isdigit()` on ASCII text: non-empty and only digits. */
  predicate IsDigits(v: string) {
    |v| > 0 && forall i | 0 <= i < |v| :: IsAsciiDigit(v[i])
  }

  /** `value.lstrip("-").isdigit()`: leading minus signs, then digits. */
  predicate IsNightNumber(v: string) {
    IsDigits(LStripChar(v, '-'))
  }

  /** An empty team is accepted; any other must be one of the known teams. */
  predicate TeamOk(team: string) {
    team == "" || team in AllowedTeams
  }

  /**
   * The team check. `Lower` lowers only the letters that can become a known team word, so the
   * warning fires as in the source, but the team it quotes keeps any other capital.
   */
  function TeamWarnings(row: Row, id: string): seq<Issue> {
    var team := Lower(CleanCell(row, "team"));
    if !TeamOk(team) then [UnknownTeam(row.line, id, team)] else []
  }

  /** A night-order value draws no warning: empty, or a (possibly negative) number. */
  predicate NightOk(value: string) {
    value == "" || IsNightNumber(value)
  }

  /** The night-order warnings of a row whose cleaned cells are `field`, over the columns `keys`. */
  function NightWarnings(line: int, id: string, field: string -> string, keys: seq<string>): seq<Issue> {
    if keys == [] then []
    else
      var key := keys[|keys| - 1];
      NightWarnings(line, id, field, keys[..|keys| - 1])
        + (if NightOk(field(key)) then [] else [NonNumericNight(line, id, key, field(key))])
  }

  /** The warnings for one characters row; rows with an empty id are skipped. */
  function CharacterRowWarnings(row: Row): seq<Issue> {
    var id := CleanCell(row, "id");
    if id == "" then []
    else TeamWarnings(row, id) + NightWarnings(row.line, id, Fields(row), NightKeys)
  }

  function CharacterWarnings(rows: seq<Row>): seq<Issue> {
    if rows == [] then []
    else CharacterWarnings(rows[..|rows| - 1]) + CharacterRowWarnings(rows[|rows| - 1])
  }

  /** The night-order checks of one characters row: the inner loop of `validate_character_rows`. */
  method CheckNightOrders(row: Row, rowId: string) returns (warnings: seq<Issue>)
    ensures warnings == NightWarnings(row.line, rowId, Fields(row), NightKeys)
  {
    warnings := [];
    for k := 0 to |NightKeys|
      invariant warnings == NightWarnings(row.line, rowId, Fields(row), NightKeys[..k])
    {
      assert NightKeys[..k + 1][..k] == NightKeys[..k];
      var key := NightKeys[k];
      var value := CleanCell(row, key);
      if value != "" && !IsNightNumber(value) {
        warnings := warnings + [NonNumericNight(row.line, rowId, key, value)];
      }
    }
    assert NightKeys[..|NightKeys|] == NightKeys;
  }

  /** The checks of one characters row, as the body of the loop in `validate_character_rows`. */
  method CheckCharacterRow(row: Row) returns (warnings: seq<Issue>)
    ensures warnings == CharacterRowWarnings(row)
  {
    var rowId := CleanCell(row, "id");
    if rowId == "" {
      return [];
    }
    var team := Lower(CleanCell(row, "team"));
    warnings := if TeamOk(team) then [] else [UnknownTeam(row.line, rowId, team)];
    var nightWarnings := CheckNightOrders(row, rowId);
    warnings := warnings + nightWarnings;
  }

  /** `validate_character_rows`: warnings only, never an error. */
  method ValidateCharacterRows(rows: seq<Row>) returns (result: Report)
    ensures result.errors == [] && result.infos == []
    ensures result.warnings == CharacterWarnings(rows)
  {
    var warnings: seq<Issue> := [];
    for i := 0 to |rows|
      invariant warnings == CharacterWarnings(rows[..i])
    {
      assert rows[..i + 1][..i] == rows[..i];
      var rowWarnings := CheckCharacterRow(rows[i]);
      warnings := warnings + rowWarnings;
    }
    assert rows[..|rows|] == rows;
    result := Report([], warnings, []);
  }

  /** A characters row draws no warning: empty id, or an allowed (or empty) team and numeric (or empty) night orders. */
  predicate CharacterRowClean(row: Row) {
    var id := CleanCell(row, "id");
    var team := Lower(CleanCell(row, "team"));
    id == "" || (TeamOk(team) && forall i | 0 <= i < |NightKeys| :: NightOk(CleanCell(row, NightKeys[i])))
  }

  lemma CharacterRowWarningsNone(row: Row)
    ensures CharacterRowWarnings(row) == [] <==> CharacterRowClean(row)
  {
    NightWarningsNone(row.line, CleanCell(row, "id"), Fields(row), NightKeys);
  }

  lemma {:induction false} NightWarningsNone(line: int, id: string, field: string -> string, keys: seq<string>)
    ensures NightWarnings(line, id, field, keys) == [] <==> forall i | 0 <= i < |keys| :: NightOk(field(keys[i]))
  {
    if keys != [] {
      var init, last := keys[..|keys| - 1], keys[|keys| - 1];
      NightWarningsNone(line, id, field, init);
      var here := if NightOk(field(last)) then [] else [NonNumericNight(line, id, last, field(last))];
      assert NightWarnings(line, id, field, keys) == NightWarnings(line, id, field, init) + here;
      assert |NightWarnings(line, id, field, keys)| == |NightWarnings(line, id, field, init)| + |here|;
      assert here == [] <==> NightOk(field(last));
      InitLast(keys);
      AllSplit(keys, init, last, k => NightOk(field(k)));
    }
  }

  /** A test holds for every element exactly when it holds for all but the last and for the last. */
  lemma AllSplit(keys: seq<string>, init: seq<string>, last: string, p: string -> bool)
    requires keys == init + [last]
    ensures (forall i | 0 <= i < |keys| :: p(keys[i])) <==> (forall i | 0 <= i < |init| :: p(init[i])) && p(last)
  {
    assert keys[|init|] == last;
    assert forall i | 0 <= i < |init| :: keys[i] == init[i];
  }

  lemma {:induction false} CharacterWarningsNone(rows: seq<Row>)
    ensures CharacterWarnings(rows) == [] <==> forall row | row in rows :: CharacterRowClean(row)
  {
    if rows != [] {
      var init, last := rows[..|rows| - 1], rows[|rows| - 1];
      CharacterWarningsNone(init);
      assert rows == init + [last];
      CharacterRowWarningsNone(last);
    }
  }

  // ---------------------------------------------------------------- validate_script_rows

  /** `^[a-z0-9_]+$`. */
  predicate IsScriptId(id: string) {
    |id| > 0 && forall i | 0 <= i < |id| :: ('a' <= id[i] <= 'z') || IsAsciiDigit(id[i]) || id[i] == '_'
  }

  const AllowedUrlPrefixes: seq<string> := ["/translations/assets/", "https://", "http://", "/"]
  const RequiredScriptFields: seq<string> := ["name", "author", "synopsis", "json", "pdf"]

  /**
   * The keys `validate_script_rows` parses as booleans. The source iterates a two-element set, whose
   * order Python leaves unspecified; the model fixes this order.
   */
  const ScriptBoolKeys: seq<string> := ["official", "teensyville"]

  /** `url.startswith(ALLOWED_URL_PREFIXES)`. */
  predicate HasAllowedPrefix(url: string) {
    exists i | 0 <= i < |AllowedUrlPrefixes| :: StartsWith(url, AllowedUrlPrefixes[i])
  }

  /** The first prefix is covered by the last, so a path is accepted iff it starts with `/`, `https://` or `http://`. */
  lemma AllowedPrefixes(url: string)
    ensures HasAllowedPrefix(url) <==> StartsWith(url, "/") || StartsWith(url, "https://") || StartsWith(url, "http://")
  {
    if StartsWith(url, "/translations/assets/") {
      assert url[..1] == "/translations/assets/"[..1];
      assert StartsWith(url, AllowedUrlPrefixes[3]);
    }
    if StartsWith(url, "/") {
      assert StartsWith(url, AllowedUrlPrefixes[3]);
    }
    if StartsWith(url, "https://") {
      assert StartsWith(url, AllowedUrlPrefixes[1]);
    }
    if StartsWith(url, "http://") {
      assert StartsWith(url, AllowedUrlPrefixes[2]);
    }
  }

  predicate HasSpace(s: string) {
    exists i | 0 <= i < |s| :: IsSpace(s[i])
  }

  /** The checks on the `json` or `pdf` path of a scripts row. */
  function PathReport(row: Row, id: string, key: string, suffix: string): (r: Report)
    ensures forall x | x in r.warnings :: x.BadSuffix?
    ensures r.infos == []
  {
    var url := CleanCell(row, key);
    Report(
      (if HasSpace(url) then [WhitespaceInPath(row.line, id, key)] else [])
      + (if url != "" && !HasAllowedPrefix(url) then [UnsupportedPath(row.line, id, key, url)] else []),
      if url != "" && !EndsWith(url, suffix) then [BadSuffix(row.line, id, key)] else [],
      [])
  }

  /** The required-field errors of a row whose cleaned cells are `field`, over the columns `keys`. */
  function EmptyFieldErrors(line: int, id: string, field: string -> string, keys: seq<string>): (r: seq<Issue>)
    ensures r == [] <==> forall i | 0 <= i < |keys| :: field(keys[i]) != ""
  {
    if keys == [] then []
    else
      var init, key := keys[..|keys| - 1], keys[|keys| - 1];
      assert forall i | 0 <= i < |init| :: init[i] == keys[i];
      EmptyFieldErrors(line, id, field, init) + (if field(key) == "" then [EmptyField(line, id, key)] else [])
  }

  /** A boolean column holds a value that is neither empty nor parseable. */
  predicate BadBoolean(row: Row, key: string) {
    key in row.cells && CleanCell(row, key) != "" && ParseOptionalBool(Cell(row, key)).None?
  }

  /** The uncleaned cells of a row, as a function from column name to text (`""` when absent). */
  function RawFields(row: Row): string -> string {
    key => Cell(row, key).GetOr("")
  }

  /** The boolean columns of a row holding a bad value. */
  function BadBooleans(row: Row): string -> bool {
    key => BadBoolean(row, key)
  }

  /** The boolean-column errors of a row whose bad columns are `bad` and raw cells `raw`, over the columns `keys`. */
  function BoolErrors(line: int, id: string, bad: string -> bool, raw: string -> string, keys: seq<string>): (r: seq<Issue>)
    ensures r == [] <==> forall i | 0 <= i < |keys| :: !bad(keys[i])
  {
    if keys == [] then []
    else
      var init, key := keys[..|keys| - 1], keys[|keys| - 1];
      assert forall i | 0 <= i < |init| :: init[i] == keys[i];
      BoolErrors(line, id, bad, raw, init) + (if bad(key) then [InvalidBoolean(line, id, key, raw(key))] else [])
  }

  /** The findings for one scripts row, in the order the source appends them; rows with an empty id are skipped. */
  function ScriptRowReport(row: Row): (r: Report)
    ensures forall x | x in r.warnings :: x.BadSuffix?
    ensures r.infos == []
  {
    var id := CleanCell(row, "id");
    if id == "" then Empty
    else
      var json := PathReport(row, id, "json", ".json");
      var pdf := PathReport(row, id, "pdf", ".pdf");
      Report(
        (if IsScriptId(id) then [] else [BadScriptId(row.line, id)])
        + EmptyFieldErrors(row.line, id, Fields(row), RequiredScriptFields)
        + json.errors + pdf.errors
        + BoolErrors(row.line, id, BadBooleans(row), RawFields(row), ScriptBoolKeys),
        json.warnings + pdf.warnings,
        [])
  }

  /** A path passes every error check: no whitespace, and an allowed prefix when present. */
  predicate PathOk(url: string) {
    !HasSpace(url) && (url == "" || HasAllowedPrefix(url))
  }

  /** A scripts row draws no error. */
  predicate ScriptRowValid(row: Row) {
    var id := CleanCell(row, "id");
    id == ""
    || (IsScriptId(id)
        && (forall i | 0 <= i < |RequiredScriptFields| :: Fields(row)(RequiredScriptFields[i]) != "")
        && PathOk(CleanCell(row, "json")) && PathOk(CleanCell(row, "pdf"))
        && (forall i | 0 <= i < |ScriptBoolKeys| :: !BadBooleans(row)(ScriptBoolKeys[i])))
  }

  /** A scripts row is free of errors exactly when it is valid; a missing suffix is only ever a warning. */
  lemma ScriptRowErrors(row: Row)
    ensures ScriptRowReport(row).errors == [] <==> ScriptRowValid(row)
  {
    var id := CleanCell(row, "id");
    if id != "" {
      var json := PathReport(row, id, "json", ".json");
      var pdf := PathReport(row, id, "pdf", ".pdf");
      PathReportErrors(row, id, "json", ".json");
      PathReportErrors(row, id, "pdf", ".pdf");
      var badId: seq<Issue> := if IsScriptId(id) then [] else [BadScriptId(row.line, id)];
      var empty := EmptyFieldErrors(row.line, id, Fields(row), RequiredScriptFields);
      var bools := BoolErrors(row.line, id, BadBooleans(row), RawFields(row), ScriptBoolKeys);
      assert ScriptRowReport(row).errors == badId + empty + json.errors + pdf.errors + bools;
      ConcatEmpty(badId, empty, json.errors, pdf.errors, bools);
    }
  }

  /** Five lists concatenate to nothing exactly when each is empty. */
  lemma ConcatEmpty<T>(a: seq<T>, b: seq<T>, c: seq<T>, d: seq<T>, e: seq<T>)
    ensures a + b + c + d + e == [] <==> a == [] && b == [] && c == [] && d == [] && e == []
  {
    if a + b + c + d + e == [] {
      assert |a + b + c + d + e| == |a| + |b| + |c| + |d| + |e|;
    }
  }

  lemma PathReportErrors(row: Row, id: string, key: string, suffix: string)
    ensures PathReport(row, id, key, suffix).errors == [] <==> PathOk(CleanCell(row, key))
  {
  }

  /** The required-field checks of one scripts row. */
  method CheckRequiredFields(row: Row, rowId: string) returns (errors: seq<Issue>)
    ensures errors == EmptyFieldErrors(row.line, rowId, Fields(row), RequiredScriptFields)
  {
    errors := [];
    for k := 0 to |RequiredScriptFields|
      invariant errors == EmptyFieldErrors(row.line, rowId, Fields(row), RequiredScriptFields[..k])
    {
      assert RequiredScriptFields[..k + 1][..k] == RequiredScriptFields[..k];
      var key := RequiredScriptFields[k];
      if CleanCell(row, key) == "" {
        errors := errors + [EmptyField(row.line, rowId, key)];
      }
    }
    assert RequiredScriptFields[..|RequiredScriptFields|] == RequiredScriptFields;
  }

  /** The boolean-column checks of one scripts row. */
  method CheckBooleans(row: Row, rowId: string) returns (errors: seq<Issue>)
    ensures errors == BoolErrors(row.line, rowId, BadBooleans(row), RawFields(row), ScriptBoolKeys)
  {
    errors := [];
    for k := 0 to |ScriptBoolKeys|
      invariant errors == BoolErrors(row.line, rowId, BadBooleans(row), RawFields(row), ScriptBoolKeys[..k])
    {
      assert ScriptBoolKeys[..k + 1][..k] == ScriptBoolKeys[..k];
      var key := ScriptBoolKeys[k];
      if key in row.cells {
        var rawValue := Cell(row, key);
        var parsed := ParseOptionalBool(rawValue);
        if CleanText(rawValue) != "" && parsed.None? {
          errors := errors + [InvalidBoolean(row.line, rowId, key, row.cells[key])];
        }
      }
    }
    assert ScriptBoolKeys[..|ScriptBoolKeys|] == ScriptBoolKeys;
  }

  /** The checks of one scripts row, as the body of the loop in `validate_script_rows`. */
  method CheckScriptRow(row: Row) returns (result: Report)
    ensures result == ScriptRowReport(row)
  {
    var rowId := CleanCell(row, "id");
    if rowId == "" {
      return Empty;
    }
    var errors: seq<Issue> := if IsScriptId(rowId) then [] else [BadScriptId(row.line, rowId)];
    var fieldErrors := CheckRequiredFields(row, rowId);
    var json := PathReport(row, rowId, "json", ".json");
    var pdf := PathReport(row, rowId, "pdf", ".pdf");
    var boolErrors := CheckBooleans(row, rowId);
    errors := errors + fieldErrors + json.errors + pdf.errors + boolErrors;
    result := Report(errors, json.warnings + pdf.warnings, []);
  }

  /** `validate_script_rows`. */
  method ValidateScriptRows(rows: seq<Row>) returns (result: Report)
    ensures result == MergeMap(rows, ScriptRowReport)
  {
    result := Empty;
    for i := 0 to |rows|
      invariant result == MergeMap(rows[..i], ScriptRowReport)
    {
      assert rows[..i + 1][..i] == rows[..i];
      var rowResult := CheckScriptRow(rows[i]);
      result := result.Merge(rowResult);
    }
    assert rows[..|rows|] == rows;
  }

  /** The scripts rows draw no error exactly when every row is valid. */
  lemma ScriptRowsErrors(rows: seq<Row>)
    ensures MergeMap(rows, ScriptRowReport).errors == [] <==> forall i | 0 <= i < |rows| :: ScriptRowValid(rows[i])
  {
    MergeMapErrorFree(rows, ScriptRowReport);
    forall i | 0 <= i < |rows| {
      ScriptRowErrors(rows[i]);
    }
  }
}
