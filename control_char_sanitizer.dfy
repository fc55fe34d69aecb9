/**
 * The CSV control-character stripper: count and delete the class `[\x00-\x08\x0B-\x1F\x7F]`,
 * rewrite each file that held any (unless it is a dry run), and decide the exit status.
 * The file system is a map from path to decoded text.
 */
module ControlCharSanitizer {
  import opened Wrappers
  import opened Strings
  import opened CsvText

  /** The outcome for one file. */
  datatype FileResult = FileResult(path: string, removedCount: nat, changed: bool, skippedMissing: bool)

  /** The `FileNotFoundError` raised for a missing file when missing files are not ignored. */
  datatype FileNotFound = FileNotFound(path: string)

  /** The files on disk, each as the text it decodes to. */
  class FileSystem {
    var files: map<string, string>

    constructor (files: map<string, string>)
      ensures this.files == files
    {
      this.files := files;
    }
  }

  /** `count_control_chars`, with its partner `sanitize_text`: the removed characters are exactly the counted ones. */
  lemma SanitizeRemovesCounted(text: string)
    ensures |StripControl(text)| == |text| - CountControl(text)
    ensures CountControl(StripControl(text)) == 0
    ensures StripControl(StripControl(text)) == StripControl(text)
  {
    StripControlIdempotent(text);
  }

  /** A file counts as changed exactly when it held a control character. */
  lemma {:induction false} ChangedIffFound(text: string)
    ensures StripControl(text) != text <==> CountControl(text) > 0
  {
    if CountControl(text) == 0 {
      StripControlUnchanged(text);
    } else {
      assert |StripControl(text)| < |text|;
    }
  }

  /** TAB and LF are outside the class and survive; CR (0x0D) is inside it and is always deleted. */
  lemma {:induction false} TabLfKeptCrRemoved(text: string)
    ensures CountChar(StripControl(text), '\t') == CountChar(text, '\t')
    ensures CountChar(StripControl(text), '\n') == CountChar(text, '\n')
    ensures '\r' !in StripControl(text)
  {
    StripControlKeeps(text, '\t');
    StripControlKeeps(text, '\n');
    var r := StripControl(text);
    assert forall i | 0 <= i < |r| :: r[i] != '\r' by {
      assert NoControl(r);
      assert IsControl('\r');
    }
  }

  /** Reading with `utf-8-sig`: one leading byte-order mark is dropped. */
  function DecodeSig(text: string): (r: string)
    ensures r == text || (text != [] && text[0] == '\U{FEFF}' && r == text[1..])
  {
    if text != [] && text[0] == '\U{FEFF}' then text[1..] else text
  }

  /** `process_file` on the file map `files`: the result, and the files afterwards. */
  function ProcessSpec(files: map<string, string>, path: string, dryRun: bool, ignoreMissing: bool)
    : (out: (Result<FileResult, FileNotFound>, map<string, string>))
    ensures out.0.Success? ==> out.0.value.path == path
    ensures out.0.Success? ==> (out.0.value.changed <==> out.0.value.removedCount > 0)
    ensures out.0.Failure? ==> path !in files && !ignoreMissing
    ensures dryRun || out.0.Failure? || !out.0.value.changed ==> out.1 == files
  {
    if path !in files then
      if ignoreMissing then (Success(FileResult(path, 0, false, true)), files)
      else (Failure(FileNotFound(path)), files)
    else
      var original := DecodeSig(files[path]);
      var sanitized := StripControl(original);
      ChangedIffFound(original);
      var changed := sanitized != original;
      (Success(FileResult(path, CountControl(original), changed, false)),
       if changed && !dryRun then files[path := sanitized] else files)
  }

  /** A write leaves the file without any control character. */
  lemma WrittenFileIsClean(files: map<string, string>, path: string, dryRun: bool, ignoreMissing: bool)
    ensures var out := ProcessSpec(files, path, dryRun, ignoreMissing);
      path in out.1 && out.1 != files ==> NoControl(out.1[path]) && CountControl(out.1[path]) == 0
  {
  }

  /** `process_file`. */
  method ProcessFile(fs: FileSystem, path: string, dryRun: bool, ignoreMissing: bool) returns (r: Result<FileResult, FileNotFound>)
    modifies fs
    ensures (r, fs.files) == ProcessSpec(old(fs.files), path, dryRun, ignoreMissing)
  {
    if path !in fs.files {
      if ignoreMissing {
        return Success(FileResult(path, 0, false, true));
      }
      return Failure(FileNotFound(path));
    }
    var original := DecodeSig(fs.files[path]);
    var removedCount := CountControl(original);
    var sanitized := StripControl(original);
    var changed := sanitized != original;
    if changed && !dryRun {
      fs.files := fs.files[path := sanitized];
    }
    return Success(FileResult(path, removedCount, changed, false));
  }

  /** The first loop of `main`: the results so far and the files, or the first missing file. */
  function ProcessAllSpec(files: map<string, string>, paths: seq<string>, dryRun: bool, ignoreMissing: bool)
    : (out: (Result<seq<FileResult>, FileNotFound>, map<string, string>))
    ensures out.0.Success? ==> |out.0.value| == |paths|
    ensures dryRun ==> out.1 == files
  {
    if paths == [] then (Success([]), files)
    else
      var before := ProcessAllSpec(files, paths[..|paths| - 1], dryRun, ignoreMissing);
      match before.0
      case Failure(e) => (Failure(e), before.1)
      case Success(results) =>
        var step := ProcessSpec(before.1, paths[|paths| - 1], dryRun, ignoreMissing);
        match step.0
        case Failure(e) => (Failure(e), step.1)
        case Success(result) => (Success(results + [result]), step.1)
  }

  /** `found_count`: processed (not skipped) files that held a control character. */
  function FoundCount(results: seq<FileResult>): (n: nat)
    ensures n <= |results|
  {
    if results == [] then 0
    else
      var last := results[|results| - 1];
      FoundCount(results[..|results| - 1]) + (if !last.skippedMissing && last.removedCount > 0 then 1 else 0)
  }

  /** `changed_count`. */
  function ChangedCount(results: seq<FileResult>): (n: nat)
    ensures n <= |results|
  {
    if results == [] then 0
    else
      var last := results[|results| - 1];
      ChangedCount(results[..|results| - 1]) + (if !last.skippedMissing && last.changed then 1 else 0)
  }

  /** No file was found holding a control character exactly when every processed file had none. */
  lemma {:induction false} FoundCountZero(results: seq<FileResult>)
    ensures FoundCount(results) == 0 <==> forall i | 0 <= i < |results| :: results[i].skippedMissing || results[i].removedCount == 0
  {
    if results != [] {
      var init := results[..|results| - 1];
      FoundCountZero(init);
      assert forall i | 0 <= i < |init| :: init[i] == results[i];
    }
  }

  /** The exit status of `main`. */
  function ExitCode(files: map<string, string>, paths: seq<string>, dryRun: bool, ignoreMissing: bool, failIfFound: bool): (code: int)
    ensures code == 0 || code == 1
  {
    match ProcessAllSpec(files, paths, dryRun, ignoreMissing).0
    case Failure(_) => 1
    case Success(results) => if failIfFound && FoundCount(results) > 0 then 1 else 0
  }

  /** Without `--fail-if-found`, only a missing (and not ignored) file fails the run. */
  lemma {:induction false} ExitCodeWithoutFailIfFound(files: map<string, string>, paths: seq<string>, dryRun: bool, ignoreMissing: bool)
    ensures ExitCode(files, paths, dryRun, ignoreMissing, false) == 1 <==> ProcessAllSpec(files, paths, dryRun, ignoreMissing).0.Failure?
  {
  }

  /** With `--ignore-missing`, processing never fails. */
  lemma {:induction false} IgnoreMissingNeverFails(files: map<string, string>, paths: seq<string>, dryRun: bool)
    ensures ProcessAllSpec(files, paths, dryRun, true).0.Success?
  {
    if paths != [] {
      IgnoreMissingNeverFails(files, paths[..|paths| - 1], dryRun);
    }
  }

  /** The counting loop of `main`: skipped files count for neither total. */
  method CountResults(results: seq<FileResult>) returns (foundCount: nat, changedCount: nat)
    ensures foundCount == FoundCount(results) && changedCount == ChangedCount(results)
  {
    foundCount, changedCount := 0, 0;
    for i := 0 to |results|
      invariant foundCount == FoundCount(results[..i])
      invariant changedCount == ChangedCount(results[..i])
    {
      assert results[..i + 1][..i] == results[..i];
      var result := results[i];
      if result.skippedMissing {
        continue;
      }
      if result.removedCount > 0 {
        foundCount := foundCount + 1;
      }
      if result.changed {
        changedCount := changedCount + 1;
      }
    }
    assert results[..|results|] == results;
  }

  /** `main`: process every path in order, stopping at the first missing one, then count. */
  method Run(fs: FileSystem, paths: seq<string>, dryRun: bool, ignoreMissing: bool, failIfFound: bool) returns (code: int)
    modifies fs
    ensures fs.files == ProcessAllSpec(old(fs.files), paths, dryRun, ignoreMissing).1
    ensures code == ExitCode(old(fs.files), paths, dryRun, ignoreMissing, failIfFound)
  {
    ghost var start := fs.files;
    var results: seq<FileResult> := [];
    for i := 0 to |paths|
      invariant (Success(results), fs.files) == ProcessAllSpec(start, paths[..i], dryRun, ignoreMissing)
    {
      ghost var before := fs.files;
      var result := ProcessFile(fs, paths[i], dryRun, ignoreMissing);
      ProcessAllStep(start, paths, i, dryRun, ignoreMissing, results, before, result, fs.files);
      if result.Failure? {
        PrefixFailureSticks(start, paths, i + 1, dryRun, ignoreMissing);
        return 1;
      }
      results := results + [result.value];
    }
    assert paths[..|paths|] == paths;
    var foundCount, changedCount := CountResults(results);
    if failIfFound && foundCount > 0 {
      return 1;
    }
    return 0;
  }

  /** One more path after a prefix that succeeded: its result is appended, or its failure is the run's. */
  lemma ProcessAllStep(files: map<string, string>, paths: seq<string>, i: nat, dryRun: bool, ignoreMissing: bool,
                       results: seq<FileResult>, before: map<string, string>,
                       result: Result<FileResult, FileNotFound>, after: map<string, string>)
    requires i < |paths|
    requires (Success(results), before) == ProcessAllSpec(files, paths[..i], dryRun, ignoreMissing)
    requires (result, after) == ProcessSpec(before, paths[i], dryRun, ignoreMissing)
    ensures result.Success? ==> (Success(results + [result.value]), after) == ProcessAllSpec(files, paths[..i + 1], dryRun, ignoreMissing)
    ensures result.Failure? ==> ProcessAllSpec(files, paths[..i + 1], dryRun, ignoreMissing).0.Failure?
    ensures result.Failure? ==> ProcessAllSpec(files, paths[..i + 1], dryRun, ignoreMissing).1 == after
  {
    assert paths[..i + 1][..i] == paths[..i];
  }

  /** Once a prefix of the paths fails, the whole run fails with the files as they were at that point. */
  lemma {:induction false} PrefixFailureSticks(files: map<string, string>, paths: seq<string>, k: nat, dryRun: bool, ignoreMissing: bool)
    requires k <= |paths|
    requires ProcessAllSpec(files, paths[..k], dryRun, ignoreMissing).0.Failure?
    ensures ProcessAllSpec(files, paths, dryRun, ignoreMissing) == ProcessAllSpec(files, paths[..k], dryRun, ignoreMissing)
    decreases |paths| - k
  {
    if k < |paths| {
      assert paths[..k + 1][..k] == paths[..k];
      PrefixFailureSticks(files, paths, k + 1, dryRun, ignoreMissing);
    } else {
      assert paths[..k] == paths;
    }
  }
}
