/**
 * The command line of the Google Sheets CSV validator: option handling, the per-target sequence of
 * checks that `main` merges into one `ValidationResult`, and the exit code.
 */
module SheetMain {
  import opened SheetIssues
  import opened SheetReader
  import opened SheetHeaders
  import opened SheetRows

  /** The parsed command-line flags (paths are replaced by the `CsvSource` each one names). */
  datatype Options = Options(
    skipCharacters: bool,
    skipScripts: bool,
    strictWarnings: bool,
    failOnControlChars: bool,
    failOnHeaderNormalization: bool,
    strict: bool)

  /** `parse_args`: `--strict` switches on the three stricter flags and leaves the others alone. */
  function Effective(opts: Options): (r: Options)
    ensures r.strict ==> r.strictWarnings && r.failOnControlChars && r.failOnHeaderNormalization
    ensures !opts.strict ==> r == opts
    ensures r.skipCharacters == opts.skipCharacters && r.skipScripts == opts.skipScripts && r.strict == opts.strict
    ensures opts.strictWarnings ==> r.strictWarnings
    ensures opts.failOnControlChars ==> r.failOnControlChars
    ensures opts.failOnHeaderNormalization ==> r.failOnHeaderNormalization
  {
    if opts.strict then opts.(strictWarnings := true, failOnControlChars := true, failOnHeaderNormalization := true)
    else opts
  }

  datatype Target = Characters | Scripts

  function RequiredHeaders(target: Target): seq<string> {
    match target
    case Characters => RequiredCharacterHeaders
    case Scripts => RequiredScriptHeaders
  }

  function KnownHeaders(target: Target): seq<string> {
    match target
    case Characters => KnownCharacterHeaders
    case Scripts => KnownScriptHeaders
  }

  /** The row checks particular to a target. */
  function RowsReport(target: Target, rows: seq<Row>): Report {
    match target
    case Characters => Report([], CharacterWarnings(rows), [])
    case Scripts => MergeMap(rows, ScriptRowReport)
  }

  /** The header checks, then the row checks, of a file whose header row was read. */
  function Checks(target: Target, load: CsvLoad, required: seq<string>, known: seq<string>): Report {
    MissingHeadersReport(load.headers, required)
      .Merge(UnknownHeadersReport(load.headers, known))
      .Merge(Report(UniqueIdErrors(load.rows), [], []))
      .Merge(RowsReport(target, load.rows))
  }

  /** Everything one target contributes: the load report, then (only when a header row was read) the header and row checks. */
  function TargetReport(target: Target, src: CsvSource, opts: Options): Report {
    var load := ReadCsvSpec(src, opts.failOnControlChars, opts.failOnHeaderNormalization);
    if load.headers == [] then load.report
    else load.report.Merge(Checks(target, load, RequiredHeaders(target), KnownHeaders(target)))
  }

  /** The merged result of a run with effective options `opts`. */
  function Validation(opts: Options, characters: CsvSource, scripts: CsvSource): Report {
    if opts.skipCharacters && opts.skipScripts then Empty
    else
      var afterCharacters := if opts.skipCharacters then Empty else TargetReport(Characters, characters, opts);
      if opts.skipScripts then afterCharacters else afterCharacters.Merge(TargetReport(Scripts, scripts, opts))
  }

  /** The exit status of `main`. */
  function ExitCode(opts: Options, result: Report): (code: int)
    ensures code == 0 || code == 1
  {
    if opts.skipCharacters && opts.skipScripts then 1
    else if result.errors != [] then 1
    else if opts.strictWarnings && result.warnings != [] then 1
    else 0
  }

  /** The header and row checks of a loaded file with a header row, merged into `result` one after another. */
  method RunChecks(result: ValidationResult, target: Target, load: CsvLoad, required: seq<string>, known: seq<string>)
    modifies result
    ensures result.Snapshot() == old(result.Snapshot()).Merge(Checks(target, load, required, known))
  {
    ghost var start := result.Snapshot();
    var missing := EnsureRequiredHeaders(load.headers, required);
    result.Merge(missing);
    var unknown := ValidateKnownHeaders(load.headers, known);
    result.Merge(unknown);
    var ids := ValidateUniqueIds(load.rows);
    result.Merge(ids);
    var rowsReport: Report;
    match target {
      case Characters =>
        rowsReport := ValidateCharacterRows(load.rows);
      case Scripts =>
        rowsReport := ValidateScriptRows(load.rows);
    }
    result.Merge(rowsReport);
    assert rowsReport == RowsReport(target, load.rows);
    MergeAssociative(start, missing, unknown);
    MergeAssociative(start, missing.Merge(unknown), ids);
    MergeAssociative(start, missing.Merge(unknown).Merge(ids), rowsReport);
  }

  /** The checks of one target, merged into `result` as `main` does. */
  method ValidateTarget(result: ValidationResult, target: Target, src: CsvSource, opts: Options)
    modifies result
    ensures result.Snapshot() == old(result.Snapshot()).Merge(TargetReport(target, src, opts))
  {
    var load := ReadCsv(src, opts.failOnControlChars, opts.failOnHeaderNormalization);
    ghost var start := result.Snapshot();
    result.Merge(load.report);
    if load.headers != [] {
      RunChecks(result, target, load, RequiredHeaders(target), KnownHeaders(target));
      MergeAssociative(start, load.report, Checks(target, load, RequiredHeaders(target), KnownHeaders(target)));
    }
  }

  /** `main`: validate the targets not skipped and return the exit status with the merged result. */
  method RunValidation(args: Options, characters: CsvSource, scripts: CsvSource) returns (code: int, report: Report)
    ensures report == Validation(Effective(args), characters, scripts)
    ensures code == ExitCode(Effective(args), report)
  {
    var opts := Effective(args);
    var result := new ValidationResult();
    if opts.skipCharacters && opts.skipScripts {
      return 1, result.Snapshot();
    }
    ghost var first: Report := Empty;
    if !opts.skipCharacters {
      ValidateTarget(result, Characters, characters, opts);
      first := TargetReport(Characters, characters, opts);
      MergeEmpty(first);
    }
    assert result.Snapshot() == first;
    if !opts.skipScripts {
      ValidateTarget(result, Scripts, scripts, opts);
    }
    report := result.Snapshot();
    assert report == Validation(opts, characters, scripts);
    if result.errors != [] {
      code := 1;
    } else if opts.strictWarnings && result.warnings != [] {
      code := 1;
    } else {
      code := 0;
    }
  }

  /** A run succeeds exactly when some target was validated, nothing failed, and warnings are allowed or absent. */
  lemma ExitCodeZero(args: Options, characters: CsvSource, scripts: CsvSource)
    ensures var opts := Effective(args);
      var report := Validation(opts, characters, scripts);
      (ExitCode(opts, report) == 0
       <==> !(args.skipCharacters && args.skipScripts) && report.errors == []
            && ((!args.strictWarnings && !args.strict) || report.warnings == []))
  {
  }

  /** Under `--strict`, a successful run saw neither errors nor warnings. */
  lemma StrictSuccessIsClean(args: Options, characters: CsvSource, scripts: CsvSource)
    requires args.strict
    ensures var opts := Effective(args);
      var report := Validation(opts, characters, scripts);
      ExitCode(opts, report) == 0 ==> report.errors == [] && report.warnings == []
  {
  }

  /** A characters file that is missing fails the run unless that target is skipped. */
  lemma {:induction false} MissingCharactersFails(args: Options, scripts: CsvSource)
    requires !args.skipCharacters
    ensures ExitCode(Effective(args), Validation(Effective(args), Missing, scripts)) == 1
  {
    var opts := Effective(args);
    var first := TargetReport(Characters, Missing, opts);
    assert first.errors == [FileMissing];
    var report := Validation(opts, Missing, scripts);
    if !opts.skipScripts {
      assert report.errors[0] == FileMissing;
    }
  }

  /** A scripts file that is missing fails the run unless that target is skipped. */
  lemma {:induction false} MissingScriptsFails(args: Options, characters: CsvSource)
    requires !args.skipScripts
    ensures ExitCode(Effective(args), Validation(Effective(args), characters, Missing)) == 1
  {
    var opts := Effective(args);
    var second := TargetReport(Scripts, Missing, opts);
    assert second.errors == [FileMissing];
    var report := Validation(opts, characters, Missing);
    assert FileMissing in report.errors by {
      if !opts.skipCharacters {
        var first := TargetReport(Characters, characters, opts);
        assert report.errors[|first.errors|] == FileMissing;
      }
    }
  }

  /** A skipped target does not influence the result. */
  lemma SkippedScriptsIgnored(opts: Options, characters: CsvSource, scripts1: CsvSource, scripts2: CsvSource)
    requires opts.skipScripts
    ensures Validation(opts, characters, scripts1) == Validation(opts, characters, scripts2)
  {
  }
}
