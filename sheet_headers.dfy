/**
 * The header-set checks of the Google Sheets CSV validator: `ensure_required_headers` and
 * `validate_known_headers`, and the header sets they compare against.
 */
module SheetHeaders {
  import opened Seqs
  import opened Sorting
  import opened Strings
  import opened SheetIssues

  /** The header sets, each listed once (their order carries no meaning). */
  const RequiredCharacterHeaders: seq<string> := ["id", "name", "team", "edition", "ability"]
  const RequiredScriptHeaders: seq<string> := ["id", "name", "author", "synopsis", "json", "pdf"]
  const OptionalCharacterHeaders: seq<string> :=
    ["image", "firstNightReminder", "otherNightReminder", "reminders", "remindersGlobal",
     "firstNight", "otherNight", "flavor", "note"]
  const OptionalScriptHeaders: seq<string> := ["logo", "note", "official", "teensyville"]
  const KnownCharacterHeaders: seq<string> := RequiredCharacterHeaders + OptionalCharacterHeaders
  const KnownScriptHeaders: seq<string> := RequiredScriptHeaders + OptionalScriptHeaders

  predicate StrictlyAscending(s: seq<string>) {
    forall i, j | 0 <= i < j < |s| :: StrLe(s[i], s[j]) && s[i] != s[j]
  }

  /** Python `sorted(set(values))`: every value once, in code-point order. */
  function SortedSet(values: seq<string>): (r: seq<string>)
    ensures forall x :: x in r <==> x in values
    ensures StrictlyAscending(r)
  {
    var d := Dedup(values);
    var r := Sort(d, StrLe);
    StrLeTotalPreorder();
    SortSorted(d, StrLe);
    DistinctPermutation(d, r);
    assert forall x :: x in r <==> x in multiset(d);
    r
  }

  /** The errors a loop over `headers` appends, one `issue(h)` per header in order. */
  function HeaderErrors(headers: seq<string>, missing: bool): (r: seq<Issue>)
    ensures |r| == |headers|
    ensures forall i | 0 <= i < |headers| :: r[i] == if missing then MissingRequiredHeader(headers[i]) else UnknownHeader(headers[i])
  {
    seq(|headers|, i requires 0 <= i < |headers| => if missing then MissingRequiredHeader(headers[i]) else UnknownHeader(headers[i]))
  }

  /** The errors of one sorted header set name each header once, in the same order. */
  lemma HeaderErrorsFacts(values: seq<string>, missing: bool)
    requires StrictlyAscending(values)
    ensures forall h :: MissingRequiredHeader(h) in HeaderErrors(values, missing) <==> missing && h in values
    ensures forall h :: UnknownHeader(h) in HeaderErrors(values, missing) <==> !missing && h in values
    ensures forall x | x in HeaderErrors(values, missing) :: if missing then x.MissingRequiredHeader? else x.UnknownHeader?
    ensures var errors := HeaderErrors(values, missing);
      forall i, j | 0 <= i < j < |errors| :: StrLe(errors[i].header, errors[j].header) && errors[i] != errors[j]
  {
    var errors := HeaderErrors(values, missing);
    forall h ensures MissingRequiredHeader(h) in errors <==> missing && h in values {
      if MissingRequiredHeader(h) in errors {
        var i :| 0 <= i < |errors| && errors[i] == MissingRequiredHeader(h);
        assert values[i] == h;
      }
      if missing && h in values {
        var i :| 0 <= i < |values| && values[i] == h;
        assert errors[i] == MissingRequiredHeader(h);
      }
    }
    forall h ensures UnknownHeader(h) in errors <==> !missing && h in values {
      if UnknownHeader(h) in errors {
        var i :| 0 <= i < |errors| && errors[i] == UnknownHeader(h);
        assert values[i] == h;
      }
      if !missing && h in values {
        var i :| 0 <= i < |values| && values[i] == h;
        assert errors[i] == UnknownHeader(h);
      }
    }
  }

  /** The loop appending one error per header of a sorted header set. */
  method AppendHeaderErrors(values: seq<string>, missing: bool) returns (errors: seq<Issue>)
    ensures errors == HeaderErrors(values, missing)
  {
    errors := [];
    for i := 0 to |values|
      invariant errors == HeaderErrors(values[..i], missing)
    {
      errors := errors + [if missing then MissingRequiredHeader(values[i]) else UnknownHeader(values[i])];
    }
    assert values[..|values|] == values;
  }

  /** The report of `ensure_required_headers`. */
  function MissingHeadersReport(headers: seq<string>, required: seq<string>): Report {
    Report(HeaderErrors(SortedSet(Filter(required, h => h !in headers)), true), [], [])
  }

  /** The report of `validate_known_headers`. */
  function UnknownHeadersReport(headers: seq<string>, known: seq<string>): Report {
    Report(HeaderErrors(SortedSet(Filter(headers, h => h !in known)), false), [], [])
  }

  /** `ensure_required_headers`: one error per required header absent from `headers`, in sorted order. */
  method EnsureRequiredHeaders(headers: seq<string>, required: seq<string>) returns (result: Report)
    ensures result == MissingHeadersReport(headers, required)
    ensures result.warnings == [] && result.infos == []
    ensures forall h :: MissingRequiredHeader(h) in result.errors <==> h in required && h !in headers
    ensures forall x | x in result.errors :: x.MissingRequiredHeader?
    ensures forall i, j | 0 <= i < j < |result.errors| :: StrLe(result.errors[i].header, result.errors[j].header) && result.errors[i] != result.errors[j]
    ensures result.errors == [] <==> forall h | h in required :: h in headers
  {
    var missing := SortedSet(Filter(required, h => h !in headers));
    forall h ensures h in missing <==> h in required && h !in headers {
      FilterMembership(required, h => h !in headers, h);
    }
    var errors := AppendHeaderErrors(missing, true);
    HeaderErrorsFacts(missing, true);
    if errors != [] {
      assert missing[0] in required && missing[0] !in headers;
    }
    result := Report(errors, [], []);
  }

  /** `validate_known_headers`: one error per distinct header outside `known`, in sorted order. */
  method ValidateKnownHeaders(headers: seq<string>, known: seq<string>) returns (result: Report)
    ensures result == UnknownHeadersReport(headers, known)
    ensures result.warnings == [] && result.infos == []
    ensures forall h :: UnknownHeader(h) in result.errors <==> h in headers && h !in known
    ensures forall x | x in result.errors :: x.UnknownHeader?
    ensures forall i, j | 0 <= i < j < |result.errors| :: StrLe(result.errors[i].header, result.errors[j].header) && result.errors[i] != result.errors[j]
    ensures result.errors == [] <==> forall h | h in headers :: h in known
  {
    var unknown := SortedSet(Filter(headers, h => h !in known));
    forall h ensures h in unknown <==> h in headers && h !in known {
      FilterMembership(headers, h => h !in known, h);
    }
    var errors := AppendHeaderErrors(unknown, false);
    HeaderErrorsFacts(unknown, false);
    if errors != [] {
      assert unknown[0] in headers && unknown[0] !in known;
    }
    result := Report(errors, [], []);
  }
}
