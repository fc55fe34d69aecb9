/**
 * The findings of the Google Sheets CSV validator (`validate_google_sheet_csv.py`). Each message is
 * modelled by what it reports; the file path prefix and the exact wording are not modelled.
 */
module SheetIssues {

  datatype Issue =
    | FileMissing
    | EmptyCsv
    | EmptyHeader(column: nat)
    | HeaderNormalized(raw: string, normalized: string)
    | DuplicatedHeader(header: string)
    | ControlChars(line: int, key: string)
    | LoadedRows(count: nat)
    | MissingRequiredHeader(header: string)
    | UnknownHeader(header: string)
    | EmptyIdWithData(line: int)
    | DuplicatedId(line: int, id: string, firstLine: int)
    | UnknownTeam(line: int, id: string, team: string)
    | NonNumericNight(line: int, id: string, key: string, value: string)
    | BadScriptId(line: int, id: string)
    | EmptyField(line: int, id: string, key: string)
    | WhitespaceInPath(line: int, id: string, kind: string)
    | BadSuffix(line: int, id: string, kind: string)
    | UnsupportedPath(line: int, id: string, kind: string, url: string)
    | InvalidBoolean(line: int, id: string, key: string, raw: string)

  /** The three lists of a `ValidationResult`, as a value. */
  datatype Report = Report(errors: seq<Issue>, warnings: seq<Issue>, infos: seq<Issue>)
  {
    /** `merge`: each list of `other` is appended to the matching list. */
    function Merge(other: Report): (r: Report)
      ensures |r.errors| == |errors| + |other.errors| && |r.warnings| == |warnings| + |other.warnings|
      ensures |r.infos| == |infos| + |other.infos|
      ensures r.errors[..|errors|] == errors && r.errors[|errors|..] == other.errors
      ensures r.warnings[..|warnings|] == warnings && r.warnings[|warnings|..] == other.warnings
      ensures r.infos[..|infos|] == infos && r.infos[|infos|..] == other.infos
    {
      Report(errors + other.errors, warnings + other.warnings, infos + other.infos)
    }
  }

  const Empty := Report([], [], [])

  function ErrorReport(issue: Issue): Report {
    Report([issue], [], [])
  }

  function WarningReport(issue: Issue): Report {
    Report([], [issue], [])
  }

  /** `add_issue`: an error when `asError`, otherwise a warning. */
  function IssueReport(issue: Issue, asError: bool): (r: Report)
    ensures r.infos == []
    ensures asError ==> r.errors == [issue] && r.warnings == []
    ensures !asError ==> r.errors == [] && r.warnings == [issue]
  {
    if asError then ErrorReport(issue) else WarningReport(issue)
  }

  /** A finding is in a merged report exactly when it is in one of the two parts. */
  lemma MergeMembers(a: Report, b: Report, x: Issue)
    ensures x in a.Merge(b).errors <==> x in a.errors || x in b.errors
    ensures x in a.Merge(b).warnings <==> x in a.warnings || x in b.warnings
    ensures x in a.Merge(b).infos <==> x in a.infos || x in b.infos
  {
    assert a.Merge(b) == Report(a.errors + b.errors, a.warnings + b.warnings, a.infos + b.infos);
  }

  lemma MergeAssociative(a: Report, b: Report, c: Report)
    ensures a.Merge(b).Merge(c) == a.Merge(b.Merge(c))
  {
    assert (a.errors + b.errors) + c.errors == a.errors + (b.errors + c.errors);
    assert (a.warnings + b.warnings) + c.warnings == a.warnings + (b.warnings + c.warnings);
    assert (a.infos + b.infos) + c.infos == a.infos + (b.infos + c.infos);
  }

  lemma MergeEmpty(a: Report)
    ensures a.Merge(Empty) == a && Empty.Merge(a) == a
  {
    assert a.errors + [] == a.errors && a.warnings + [] == a.warnings && a.infos + [] == a.infos;
  }

  /** The reports `f(x)` for each `x` of `xs`, merged in order. */
  function MergeMap<T>(xs: seq<T>, f: T -> Report): Report {
    if xs == [] then Empty
    else MergeMap(xs[..|xs| - 1], f).Merge(f(xs[|xs| - 1]))
  }

  /** A merged report is free of errors exactly when every part is. */
  lemma {:induction false} MergeMapErrorFree<T>(xs: seq<T>, f: T -> Report)
    ensures MergeMap(xs, f).errors == [] <==> forall i | 0 <= i < |xs| :: f(xs[i]).errors == []
  {
    if xs != [] {
      var init := xs[..|xs| - 1];
      MergeMapErrorFree(init, f);
      assert MergeMap(xs, f).errors == MergeMap(init, f).errors + f(xs[|xs| - 1]).errors;
      assert forall i | 0 <= i < |init| :: init[i] == xs[i];
    }
  }

  /** Merging a list of errors, another report and a list of infos onto `a`, as `read_csv` does. */
  lemma MergeParts(a: Report, errors: seq<Issue>, b: Report, infos: seq<Issue>)
    ensures a.Merge(Report(errors, [], [])).Merge(b).Merge(Report([], [], infos))
      == Report(a.errors + errors + b.errors, a.warnings + b.warnings, a.infos + b.infos + infos)
  {
    assert a.warnings + [] + b.warnings + [] == a.warnings + b.warnings;
    assert a.infos + [] + b.infos == a.infos + b.infos;
    assert a.errors + errors + b.errors + [] == a.errors + errors + b.errors;
  }

  /** The mutable accumulator `ValidationResult` that `main` merges every partial result into. */
  class ValidationResult {
    var errors: seq<Issue>
    var warnings: seq<Issue>
    var infos: seq<Issue>

    constructor ()
      ensures errors == [] && warnings == [] && infos == []
    {
      errors, warnings, infos := [], [], [];
    }

    function Snapshot(): (r: Report)
      reads this
      ensures r.errors == errors && r.warnings == warnings && r.infos == infos
    {
      Report(errors, warnings, infos)
    }

    /** `merge`: extend the three lists in place. */
    method Merge(other: Report)
      modifies this
      ensures Snapshot() == old(Snapshot()).Merge(other)
    {
      errors := errors + other.errors;
      warnings := warnings + other.warnings;
      infos := infos + other.infos;
    }
  }
}
