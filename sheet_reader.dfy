/**
 * `read_csv` and `count_duplicates` of the Google Sheets CSV validator: header sanitising and
 * header findings, duplicated headers, and the rows as `csv.DictReader` hands them over.
 */
module SheetReader {
  import opened Wrappers
  import opened Seqs
  import opened CsvText
  import opened SheetIssues

  /** One `(key, value)` pair of a `csv.DictReader` row; extra fields have no key, missing ones no value. */
  datatype RawCell = RawCell(key: Option<string>, value: Option<string>)

  /** What the file holds: nothing at all, no header record, or a header record and data records. */
  datatype CsvSource =
    | Missing
    | NoHeaderRow
    | Table(rawHeaders: seq<string>, records: seq<seq<RawCell>>)

  /** A data row with its line number (the header is line 1). */
  datatype Row = Row(line: int, cells: map<string, string>)

  datatype CsvLoad = CsvLoad(headers: seq<string>, rows: seq<Row>, report: Report)

  /** A Python `dict[str, int]` of counts, with its key order. */
  datatype Counter = Counter(order: seq<string>, counts: map<string, nat>)

  function SanitizeHeaders(raw: seq<string>): (r: seq<string>)
    ensures |r| == |raw| && forall i | 0 <= i < |raw| :: r[i] == SanitizeHeader(Some(raw[i]))
  {
    seq(|raw|, i requires 0 <= i < |raw| => SanitizeHeader(Some(raw[i])))
  }

  /** The finding for header column `index` (counted from 1), read as `raw` and sanitised to `normalized`. */
  function ColumnReport(index: nat, raw: string, normalized: string, failOnNormalization: bool): (r: Report)
    ensures r.infos == []
    ensures forall x | x in r.errors :: x == EmptyHeader(index) || (failOnNormalization && x == HeaderNormalized(raw, normalized))
    ensures forall x | x in r.warnings :: !failOnNormalization && x == HeaderNormalized(raw, normalized)
    ensures EmptyHeader(index) in r.errors <==> normalized == ""
    ensures normalized != "" && normalized != raw ==>
      HeaderNormalized(raw, normalized) in (if failOnNormalization then r.errors else r.warnings)
  {
    if normalized == "" then ErrorReport(EmptyHeader(index))
    else if raw != normalized then IssueReport(HeaderNormalized(raw, normalized), failOnNormalization)
    else Empty
  }

  /** A column whose header sanitising changed (and did not empty) is reported as normalised. */
  lemma ColumnNormalized(index: nat, raw: string, normalized: string, failOnNormalization: bool)
    requires normalized != "" && normalized != raw
    ensures var r := ColumnReport(index, raw, normalized, failOnNormalization);
      HeaderNormalized(raw, normalized) in (if failOnNormalization then r.errors else r.warnings)
  {
  }

  /** The findings for the header columns, left to right. */
  function HeaderReport(raw: seq<string>, headers: seq<string>, failOnNormalization: bool): Report
    requires |raw| == |headers|
  {
    if raw == [] then Empty
    else
      HeaderReport(raw[..|raw| - 1], headers[..|raw| - 1], failOnNormalization)
        .Merge(ColumnReport(|raw|, raw[|raw| - 1], headers[|raw| - 1], failOnNormalization))
  }

  /** The header values occurring more than once, in order of first occurrence. */
  function DuplicatedHeaders(headers: seq<string>): seq<string> {
    Filter(Dedup(headers), h => multiset(headers)[h] > 1)
  }

  function DuplicateErrors(duplicates: seq<string>): (r: seq<Issue>)
    ensures |r| == |duplicates|
  {
    if duplicates == [] then []
    else DuplicateErrors(duplicates[..|duplicates| - 1]) + [DuplicatedHeader(duplicates[|duplicates| - 1])]
  }

  /** What one `DictReader` cell adds to the row read so far and to its findings. */
  function AddCell(acc: (map<string, string>, Report), cell: RawCell, line: int, failOnControl: bool)
    : (r: (map<string, string>, Report))
    ensures forall key | key in r.0 :: key in acc.0 || key != ""
    ensures forall x | x in r.1.errors :: x in acc.1.errors || (failOnControl && x.ControlChars? && x.line == line)
    ensures forall x | x in r.1.warnings :: x in acc.1.warnings || (!failOnControl && x.ControlChars? && x.line == line)
    ensures r.1.infos == acc.1.infos
  {
    var key := SanitizeHeader(cell.key);
    if key == "" then acc
    else
      var value := cell.value.GetOr("");
      (acc.0[key := value],
       if NoControl(value) then acc.1 else acc.1.Merge(IssueReport(ControlChars(line, key), failOnControl)))
  }

  /** One row: every cell whose sanitised key is non-empty, a later equal key overriding, with a finding per value holding control characters. */
  function CellsSpec(cells: seq<RawCell>, line: int, failOnControl: bool): (r: (map<string, string>, Report))
    ensures forall key | key in r.0 :: key != ""
    ensures forall x | x in r.1.errors :: failOnControl && x.ControlChars? && x.line == line
    ensures forall x | x in r.1.warnings :: !failOnControl && x.ControlChars? && x.line == line
    ensures r.1.infos == []
  {
    if cells == [] then (map[], Empty)
    else AddCell(CellsSpec(cells[..|cells| - 1], line, failOnControl), cells[|cells| - 1], line, failOnControl)
  }

  /** Reading one more cell applies `AddCell`. */
  lemma CellsSpecStep(cells: seq<RawCell>, j: int, line: int, failOnControl: bool)
    requires 0 <= j < |cells|
    ensures CellsSpec(cells[..j + 1], line, failOnControl) == AddCell(CellsSpec(cells[..j], line, failOnControl), cells[j], line, failOnControl)
  {
    assert cells[..j + 1][..j] == cells[..j];
  }

  /** The data records as rows numbered from line 2, with their findings. */
  function RowsSpec(records: seq<seq<RawCell>>, failOnControl: bool): (r: (seq<Row>, Report))
    ensures |r.0| == |records|
    ensures forall k | 0 <= k < |r.0| :: r.0[k].line == k + 2 && forall key | key in r.0[k].cells :: key != ""
    ensures forall x | x in r.1.errors :: failOnControl && x.ControlChars?
    ensures forall x | x in r.1.warnings :: !failOnControl && x.ControlChars?
    ensures r.1.infos == []
  {
    if records == [] then ([], Empty)
    else
      var (rows, rep) := RowsSpec(records[..|records| - 1], failOnControl);
      var line := |records| - 1 + 2;
      var (m, r) := CellsSpec(records[|records| - 1], line, failOnControl);
      (rows + [Row(line, m)], rep.Merge(r))
  }

  /** What `read_csv` returns: headers, rows and findings. */
  function ReadCsvSpec(src: CsvSource, failOnControl: bool, failOnNormalization: bool): CsvLoad {
    match src
    case Missing => CsvLoad([], [], ErrorReport(FileMissing))
    case NoHeaderRow => CsvLoad([], [], ErrorReport(EmptyCsv))
    case Table(raw, records) =>
      var headers := SanitizeHeaders(raw);
      var (rows, rowReport) := RowsSpec(records, failOnControl);
      CsvLoad(headers, rows,
        HeaderReport(raw, headers, failOnNormalization)
          .Merge(Report(DuplicateErrors(DuplicatedHeaders(headers)), [], []))
          .Merge(rowReport)
          .Merge(Report([], [], [LoadedRows(|rows|)])))
  }

  /** One more value is appended to the order exactly when it is new. */
  lemma DedupStep(prefix: seq<string>, v: string)
    ensures Dedup(prefix + [v]) == Dedup(prefix) + (if v in prefix then [] else [v])
  {
    assert (prefix + [v])[..|prefix|] == prefix;
  }

  /** One more value: its count goes up by one, starting from one when it is new. */
  lemma CountStep(prefix: seq<string>, v: string, counts: map<string, nat>)
    requires forall w :: w in counts <==> w in prefix
    requires forall w | w in counts :: counts[w] == multiset(prefix)[w]
    ensures var next := if v in counts then counts[v := counts[v] + 1] else counts[v := 1];
      (forall w :: w in next <==> w in prefix + [v]) && (forall w | w in next :: next[w] == multiset(prefix + [v])[w])
  {
    var next := if v in counts then counts[v := counts[v] + 1] else counts[v := 1];
    var m := multiset(prefix + [v]);
    assert m == multiset(prefix) + multiset{v};
    forall w | w in next
      ensures next[w] == m[w]
    {
      if w == v {
        assert m[w] == multiset(prefix)[w] + 1;
      } else {
        assert m[w] == multiset(prefix)[w];
      }
    }
  }

  /** `count_duplicates`: how often each value occurs, keys in order of first occurrence. */
  method CountDuplicates(values: seq<string>) returns (c: Counter)
    ensures c.order == Dedup(values)
    ensures forall v :: v in c.counts <==> v in values
    ensures forall v | v in c.counts :: c.counts[v] == multiset(values)[v]
  {
    var order: seq<string> := [];
    var counts: map<string, nat> := map[];
    for i := 0 to |values|
      invariant order == Dedup(values[..i])
      invariant forall v :: v in counts <==> v in values[..i]
      invariant forall v | v in counts :: counts[v] == multiset(values[..i])[v]
    {
      var v := values[i];
      assert values[..i + 1] == values[..i] + [v];
      DedupStep(values[..i], v);
      CountStep(values[..i], v, counts);
      if v !in counts {
        order := order + [v];
        counts := counts[v := 1];
      } else {
        counts := counts[v := counts[v] + 1];
      }
    }
    assert values[..|values|] == values;
    c := Counter(order, counts);
  }

  /** The header loop of `read_csv`. */
  method CheckHeaders(raw: seq<string>, headers: seq<string>, failOnNormalization: bool) returns (result: Report)
    requires |raw| == |headers|
    ensures result == HeaderReport(raw, headers, failOnNormalization)
  {
    result := Empty;
    for i := 0 to |raw|
      invariant result == HeaderReport(raw[..i], headers[..i], failOnNormalization)
    {
      HeaderReportPrefixStep(raw, headers, failOnNormalization, i);
      result := result.Merge(ColumnReport(i + 1, raw[i], headers[i], failOnNormalization));
    }
    assert raw[..|raw|] == raw && headers[..|headers|] == headers;
  }

  /** The headers `read_csv` reports as duplicated: those counted more than once. */
  method FindDuplicates(headers: seq<string>) returns (duplicates: seq<string>)
    ensures duplicates == DuplicatedHeaders(headers)
  {
    var counter := CountDuplicates(headers);
    duplicates := [];
    for j := 0 to |counter.order|
      invariant duplicates == Filter(counter.order[..j], h => multiset(headers)[h] > 1)
    {
      FilterPrefixStep(counter.order, h => multiset(headers)[h] > 1, j);
      if counter.counts[counter.order[j]] > 1 {
        duplicates := duplicates + [counter.order[j]];
      }
    }
    assert counter.order[..|counter.order|] == counter.order;
  }

  /** The inner loop of `read_csv` over one `DictReader` row. */
  method ReadRow(cells: seq<RawCell>, line: int, failOnControl: bool) returns (row: map<string, string>, result: Report)
    ensures (row, result) == CellsSpec(cells, line, failOnControl)
  {
    row, result := map[], Empty;
    for j := 0 to |cells|
      invariant (row, result) == CellsSpec(cells[..j], line, failOnControl)
    {
      CellsSpecStep(cells, j, line, failOnControl);
      var key := SanitizeHeader(cells[j].key);
      if key != "" {
        var value := cells[j].value.GetOr("");
        if !NoControl(value) {
          result := result.Merge(IssueReport(ControlChars(line, key), failOnControl));
        }
        row := row[key := value];
      }
    }
    assert cells[..|cells|] == cells;
  }

  /** The row loop of `read_csv`: lines are numbered from 2. */
  method ReadRows(records: seq<seq<RawCell>>, failOnControl: bool) returns (rows: seq<Row>, result: Report)
    ensures (rows, result) == RowsSpec(records, failOnControl)
  {
    rows, result := [], Empty;
    for k := 0 to |records|
      invariant (rows, result) == RowsSpec(records[..k], failOnControl)
    {
      assert records[..k + 1][..k] == records[..k];
      var row, rowResult := ReadRow(records[k], k + 2, failOnControl);
      rows, result := rows + [Row(k + 2, row)], result.Merge(rowResult);
    }
    assert records[..|records|] == records;
  }

  /** `read_csv`, with the file's contents given as `src`. */
  method ReadCsv(src: CsvSource, failOnControl: bool, failOnNormalization: bool) returns (load: CsvLoad)
    ensures load == ReadCsvSpec(src, failOnControl, failOnNormalization)
  {
    match src
    case Missing =>
      load := CsvLoad([], [], ErrorReport(FileMissing));
    case NoHeaderRow =>
      load := CsvLoad([], [], ErrorReport(EmptyCsv));
    case Table(raw, records) =>
      var headers := SanitizeHeaders(raw);
      var result := CheckHeaders(raw, headers, failOnNormalization);
      var duplicates := FindDuplicates(headers);
      result := result.Merge(Report(DuplicateErrors(duplicates), [], []));
      var rows, rowResult := ReadRows(records, failOnControl);
      result := result.Merge(rowResult);
      result := result.Merge(Report([], [], [LoadedRows(|rows|)]));
      load := CsvLoad(headers, rows, result);
  }

  /** Header findings are only empty or normalised headers; normalisation is an error exactly under the flag. */
  lemma {:induction false} HeaderReportKinds(raw: seq<string>, headers: seq<string>, failOnNormalization: bool)
    requires |raw| == |headers|
    ensures forall x | x in HeaderReport(raw, headers, failOnNormalization).errors :: x.EmptyHeader? || (failOnNormalization && x.HeaderNormalized?)
    ensures forall x | x in HeaderReport(raw, headers, failOnNormalization).warnings :: !failOnNormalization && x.HeaderNormalized?
    ensures HeaderReport(raw, headers, failOnNormalization).infos == []
  {
    if raw != [] {
      HeaderReportKinds(raw[..|raw| - 1], headers[..|raw| - 1], failOnNormalization);
    }
  }

  /** The report of all columns is the report of all but the last, then the last column's. */
  lemma HeaderReportStep(raw: seq<string>, headers: seq<string>, failOnNormalization: bool)
    requires |raw| == |headers| && raw != []
    ensures HeaderReport(raw, headers, failOnNormalization)
         == HeaderReport(raw[..|raw| - 1], headers[..|raw| - 1], failOnNormalization)
              .Merge(ColumnReport(|raw|, raw[|raw| - 1], headers[|raw| - 1], failOnNormalization))
  {
  }

  /** The report of the first `i + 1` columns extends that of the first `i`. */
  lemma HeaderReportPrefixStep(raw: seq<string>, headers: seq<string>, failOnNormalization: bool, i: nat)
    requires |raw| == |headers| && i < |raw|
    ensures HeaderReport(raw[..i + 1], headers[..i + 1], failOnNormalization)
         == HeaderReport(raw[..i], headers[..i], failOnNormalization).Merge(ColumnReport(i + 1, raw[i], headers[i], failOnNormalization))
  {
    assert raw[..i + 1][..i] == raw[..i] && headers[..i + 1][..i] == headers[..i];
    HeaderReportStep(raw[..i + 1], headers[..i + 1], failOnNormalization);
  }

  /** Column `i` (from 1) is reported empty exactly when its sanitised header is empty. */
  lemma {:induction false} HeaderReportEmptyColumns(raw: seq<string>, headers: seq<string>, failOnNormalization: bool, i: nat)
    requires |raw| == |headers|
    ensures EmptyHeader(i) in HeaderReport(raw, headers, failOnNormalization).errors
      <==> 1 <= i <= |raw| && headers[i - 1] == ""
  {
    if raw != [] {
      var n := |raw| - 1;
      var prev := HeaderReport(raw[..n], headers[..n], failOnNormalization);
      var col := ColumnReport(|raw|, raw[n], headers[n], failOnNormalization);
      HeaderReportStep(raw, headers, failOnNormalization);
      HeaderReportEmptyColumns(raw[..n], headers[..n], failOnNormalization, i);
      var inPrev := 1 <= i <= n && headers[i - 1] == "";
      if 1 <= i <= n {
        assert headers[i - 1] == headers[..n][i - 1];
      }
      assert EmptyHeader(i) in prev.errors <==> inPrev;
      assert EmptyHeader(i) in col.errors <==> i == |raw| && headers[n] == "";
      ErrorInMerge(prev, col, EmptyHeader(i), inPrev, i == |raw| && headers[n] == "");
    }
  }

  /** A header changed by sanitising (and not emptied) is reported, as an error under the flag and as a warning otherwise. */
  lemma {:induction false} HeaderReportNormalized(raw: seq<string>, headers: seq<string>, failOnNormalization: bool, i: int)
    requires |raw| == |headers| && 0 <= i < |raw|
    requires headers[i] != "" && headers[i] != raw[i]
    ensures var r := HeaderReport(raw, headers, failOnNormalization);
      HeaderNormalized(raw[i], headers[i]) in (if failOnNormalization then r.errors else r.warnings)
  {
    var n := |raw| - 1;
    var prev := HeaderReport(raw[..n], headers[..n], failOnNormalization);
    var x := HeaderNormalized(raw[i], headers[i]);
    HeaderReportStep(raw, headers, failOnNormalization);
    if i == n {
      ColumnNormalized(|raw|, raw[i], headers[i], failOnNormalization);
      FoundInMerge(prev, ColumnReport(|raw|, raw[i], headers[i], failOnNormalization), x, failOnNormalization);
    } else {
      assert raw[i] == raw[..n][i] && headers[i] == headers[..n][i];
      HeaderReportNormalized(raw[..n], headers[..n], failOnNormalization, i);
      FoundInMerge(prev, ColumnReport(|raw|, raw[n], headers[n], failOnNormalization), x, failOnNormalization);
    }
  }

  /** An error is in the merged report exactly when it is in either part. */
  lemma ErrorInMerge(a: Report, b: Report, x: Issue, inA: bool, inB: bool)
    requires x in a.errors <==> inA
    requires x in b.errors <==> inB
    ensures x in a.Merge(b).errors <==> inA || inB
  {
    MergeMembers(a, b, x);
  }

  /** A finding of either part, as an error or as a warning, stays one in the merged report. */
  lemma FoundInMerge(a: Report, b: Report, x: Issue, asError: bool)
    requires x in (if asError then a.errors else a.warnings) || x in (if asError then b.errors else b.warnings)
    ensures x in (if asError then a.Merge(b).errors else a.Merge(b).warnings)
  {
    MergeMembers(a, b, x);
  }

  lemma {:induction false} DuplicateErrorsCount(duplicates: seq<string>, h: string)
    ensures multiset(DuplicateErrors(duplicates))[DuplicatedHeader(h)] == multiset(duplicates)[h]
  {
    if duplicates != [] {
      var init := duplicates[..|duplicates| - 1];
      DuplicateErrorsCount(init, h);
      assert duplicates == init + [duplicates[|duplicates| - 1]];
    }
  }

  lemma {:induction false} DuplicateErrorsKinds(duplicates: seq<string>)
    ensures forall x | x in DuplicateErrors(duplicates) :: x.DuplicatedHeader?
  {
    forall x | x in DuplicateErrors(duplicates) ensures x.DuplicatedHeader? {
      DuplicateErrorsCount(duplicates, "");
      var r := DuplicateErrors(duplicates);
      var k :| 0 <= k < |r| && r[k] == x;
      DuplicateErrorsAt(duplicates, k);
    }
  }

  lemma {:induction false} DuplicateErrorsAt(duplicates: seq<string>, k: int)
    requires 0 <= k < |duplicates|
    ensures DuplicateErrors(duplicates)[k] == DuplicatedHeader(duplicates[k])
  {
    var init := duplicates[..|duplicates| - 1];
    if k < |init| {
      DuplicateErrorsAt(init, k);
    }
  }

  /** Each header value occurring more than once is reported exactly once. */
  lemma {:induction false} DuplicatedHeadersOnce(headers: seq<string>, h: string)
    ensures multiset(DuplicateErrors(DuplicatedHeaders(headers)))[DuplicatedHeader(h)]
      == if multiset(headers)[h] > 1 then 1 else 0
  {
    DuplicateErrorsCount(DuplicatedHeaders(headers), h);
    FilterCount(Dedup(headers), h => multiset(headers)[h] > 1, h);
    DedupOnce(headers, h);
  }

  lemma {:induction false} ReadCsvUnfold(raw: seq<string>, records: seq<seq<RawCell>>, failOnControl: bool, failOnNormalization: bool)
    ensures var headers := SanitizeHeaders(raw);
      var load := ReadCsvSpec(Table(raw, records), failOnControl, failOnNormalization);
      load.headers == headers
      && load.report == HeaderReport(raw, headers, failOnNormalization)
          .Merge(Report(DuplicateErrors(DuplicatedHeaders(headers)), [], []))
          .Merge(RowsSpec(records, failOnControl).1)
          .Merge(Report([], [], [LoadedRows(|records|)]))
  {
  }

  /** How the report of `read_csv` on a table is assembled. */
  lemma {:induction false} ReadCsvReport(raw: seq<string>, records: seq<seq<RawCell>>, failOnControl: bool, failOnNormalization: bool)
    ensures var load := ReadCsvSpec(Table(raw, records), failOnControl, failOnNormalization);
      var hr := HeaderReport(raw, load.headers, failOnNormalization);
      var rr := RowsSpec(records, failOnControl).1;
      load.headers == SanitizeHeaders(raw)
      && load.report.errors == hr.errors + DuplicateErrors(DuplicatedHeaders(load.headers)) + rr.errors
      && load.report.warnings == hr.warnings + rr.warnings
      && load.report.infos == [LoadedRows(|records|)]
  {
    ReadCsvUnfold(raw, records, failOnControl, failOnNormalization);
    var headers := SanitizeHeaders(raw);
    var hr := HeaderReport(raw, headers, failOnNormalization);
    var rr := RowsSpec(records, failOnControl).1;
    HeaderReportKinds(raw, headers, failOnNormalization);
    MergeParts(hr, DuplicateErrors(DuplicatedHeaders(headers)), rr, [LoadedRows(|records|)]);
  }

  /** `read_csv` reports column `i` (from 1) as empty exactly when its sanitised header is empty. */
  lemma {:induction false} ReadCsvEmptyHeaders(raw: seq<string>, records: seq<seq<RawCell>>, failOnControl: bool, failOnNormalization: bool, i: nat)
    requires 1 <= i <= |raw|
    ensures var load := ReadCsvSpec(Table(raw, records), failOnControl, failOnNormalization);
      EmptyHeader(i) in load.report.errors <==> load.headers[i - 1] == ""
  {
    ReadCsvReport(raw, records, failOnControl, failOnNormalization);
    var headers := SanitizeHeaders(raw);
    HeaderReportEmptyColumns(raw, headers, failOnNormalization, i);
    DuplicateErrorsKinds(DuplicatedHeaders(headers));
  }

  /** `read_csv` reports each header value that occurs more than once in exactly one "duplicated header" error. */
  lemma {:induction false} ReadCsvDuplicatedHeaders(raw: seq<string>, records: seq<seq<RawCell>>, failOnControl: bool, failOnNormalization: bool, h: string)
    ensures var load := ReadCsvSpec(Table(raw, records), failOnControl, failOnNormalization);
      multiset(load.report.errors)[DuplicatedHeader(h)] == if multiset(load.headers)[h] > 1 then 1 else 0
  {
    ReadCsvReport(raw, records, failOnControl, failOnNormalization);
    var headers := SanitizeHeaders(raw);
    HeaderReportKinds(raw, headers, failOnNormalization);
    DuplicatedHeadersOnce(headers, h);
    var hr := HeaderReport(raw, headers, failOnNormalization);
    var rr := RowsSpec(records, failOnControl).1;
    var d := DuplicateErrors(DuplicatedHeaders(headers));
    var x := DuplicatedHeader(h);
    assert x !in hr.errors && x !in rr.errors;
    assert multiset(hr.errors)[x] == 0 && multiset(rr.errors)[x] == 0;
    assert multiset(hr.errors + d + rr.errors) == multiset(hr.errors) + multiset(d) + multiset(rr.errors);
  }
}
