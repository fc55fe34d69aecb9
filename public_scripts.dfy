/**
 * The generator of `public/scripts.json` from the scripts CSV: the entries of the existing
 * `scripts.json` indexed by id, one public entry per CSV row with a non-empty id, and the merge
 * of the fields the CSV does not carry (`official`, `background`) from the existing entry.
 */
module PublicScripts {
  import opened Wrappers
  import opened Seqs
  import opened Strings
  import opened CsvText
  import opened Json

  /** A CSV row as `csv.DictReader` yields it after header sanitising: column name to raw text. */
  type CsvRow = map<string, string>

  /** A JSON object of the existing file. */
  type Entry = map<string, Json>

  /** The existing `scripts.json`: absent, or the JSON value it holds. */
  datatype ExistingFile = NoFile | Contents(data: Json)

  datatype LoadError = NotAnArray

  const KnownOfficialIds: seq<string> := ["trouble_brewing", "bad_moon_rising", "sects_and_violets"]

  /**
   * A generated entry. The fields are in the order the source inserts its keys; `logo` and
   * `background` are present only when `Some`, `official` and `teensyville` only when true.
   */
  datatype PublicScript = PublicScript(
    author: string,
    synopsis: string,
    name: string,
    id: string,
    pdf: string,
    json: string,
    note: string,
    logo: Option<string>,
    official: bool,
    teensyville: bool,
    background: Option<string>)
  {
    /** The keys of the emitted JSON object, in insertion order. */
    function Keys(): (r: seq<string>)
      ensures |r| >= 7 && r[..7] == ["author", "synopsis", "name", "id", "pdf", "json", "note"]
      ensures "logo" in r <==> logo.Some?
      ensures "official" in r <==> official
      ensures "teensyville" in r <==> teensyville
      ensures "background" in r <==> background.Some?
    {
      var base := ["author", "synopsis", "name", "id", "pdf", "json", "note"];
      NotInByFirstChar(base, "logo");
      NotInByFirstChar(base, "official");
      NotInByFirstChar(base, "teensyville");
      NotInByFirstChar(base, "background");
      assert "logo"[0] == 'l' && "official"[0] == 'o' && "teensyville"[0] == 't' && "background"[0] == 'b';
      base
      + (if logo.Some? then ["logo"] else [])
      + (if official then ["official"] else [])
      + (if teensyville then ["teensyville"] else [])
      + (if background.Some? then ["background"] else [])
    }
  }

  /** A key whose first letter begins none of `keys` is not one of them. */
  lemma NotInByFirstChar(keys: seq<string>, key: string)
    requires key != [] && forall i | 0 <= i < |keys| :: keys[i] != [] && keys[i][0] != key[0]
    ensures key !in keys
  {
  }

  /** `clean_text(row.get(key))`. */
  function Clean(row: CsvRow, key: string): string {
    CleanText(Lookup(row, key))
  }

  /** The id of an item of the existing file, when it is an object whose `id` is a non-empty string. */
  function ItemId(item: Json): (r: Option<string>)
    ensures r.Some? ==> item.JObj? && r.value != "" && "id" in item.fields && item.fields["id"] == JStr(r.value)
  {
    match item.GetString("id")
    case Some(id) => if id != "" then Some(id) else None
    case None => None
  }

  // ---------------------------------------------------------------- load_existing_scripts

  /** The dictionary `load_existing_scripts` builds from the items of the array. */
  function ScriptsById(items: seq<Json>): (r: map<string, Entry>)
    ensures forall id | id in r :: id != ""
  {
    if items == [] then map[]
    else
      var last := items[|items| - 1];
      var earlier := ScriptsById(items[..|items| - 1]);
      match ItemId(last)
      case Some(id) => earlier[id := last.fields]
      case None => earlier
  }

  /** The last item of `items` whose id is `id`. */
  function LastWithId(items: seq<Json>, id: string): Option<Entry> {
    if items == [] then None
    else
      var last := items[|items| - 1];
      if ItemId(last) == Some(id) then Some(last.fields) else LastWithId(items[..|items| - 1], id)
  }

  /** `LastWithId` finds an item with that id, after which no item carries it. */
  lemma {:induction false} LastWithIdIsLast(items: seq<Json>, id: string)
    requires LastWithId(items, id).Some?
    ensures exists i | 0 <= i < |items| ::
      ItemId(items[i]) == Some(id) && items[i].fields == LastWithId(items, id).value
      && forall j | i < j < |items| :: ItemId(items[j]) != Some(id)
  {
    var n := |items|;
    if ItemId(items[n - 1]) == Some(id) {
      assert ItemId(items[n - 1]) == Some(id) && items[n - 1].fields == LastWithId(items, id).value;
    } else {
      var init := items[..n - 1];
      LastWithIdIsLast(init, id);
      var i :| 0 <= i < |init| && ItemId(init[i]) == Some(id) && init[i].fields == LastWithId(init, id).value
        && forall j | i < j < |init| :: ItemId(init[j]) != Some(id);
      assert items[i] == init[i];
      assert forall j | i < j < n :: ItemId(items[j]) != Some(id) by {
        forall j | i < j < n ensures ItemId(items[j]) != Some(id) {
          if j < n - 1 {
            assert items[j] == init[j];
          }
        }
      }
    }
  }

  /** An id is a key exactly when some item carries it, and it maps to the last such item: later duplicates overwrite earlier ones. */
  lemma {:induction false} ScriptsByIdLast(items: seq<Json>, id: string)
    ensures id in ScriptsById(items) <==> LastWithId(items, id).Some?
    ensures id in ScriptsById(items) ==> ScriptsById(items)[id] == LastWithId(items, id).value
  {
    if items != [] {
      ScriptsByIdLast(items[..|items| - 1], id);
    }
  }

  /** A missing id means no item of the array carries it; objects without a usable id, and non-objects, are skipped. */
  lemma {:induction false} ScriptsByIdAbsent(items: seq<Json>, id: string)
    ensures id !in ScriptsById(items) <==> forall i | 0 <= i < |items| :: ItemId(items[i]) != Some(id)
  {
    ScriptsByIdLast(items, id);
    if LastWithId(items, id).Some? {
      LastWithIdIsLast(items, id);
    } else {
      LastWithIdNone(items, id);
    }
  }

  lemma {:induction false} LastWithIdNone(items: seq<Json>, id: string)
    requires LastWithId(items, id).None?
    ensures forall i | 0 <= i < |items| :: ItemId(items[i]) != Some(id)
  {
    if items != [] {
      var init := items[..|items| - 1];
      LastWithIdNone(init, id);
      assert forall i | 0 <= i < |init| :: items[i] == init[i];
    }
  }

  /** `load_existing_scripts`: `{}` for a missing file, an error for a non-array, else the items indexed by id. */
  method LoadExistingScripts(file: ExistingFile) returns (r: Result<map<string, Entry>, LoadError>)
    ensures file.NoFile? ==> r == Success(map[])
    ensures file.Contents? && !file.data.JArr? ==> r == Failure(NotAnArray)
    ensures file.Contents? && file.data.JArr? ==> r == Success(ScriptsById(file.data.items))
  {
    match file
    case NoFile =>
      return Success(map[]);
    case Contents(data) =>
      if !data.JArr? {
        return Failure(NotAnArray);
      }
      var items := data.items;
      var scriptsById: map<string, Entry> := map[];
      for i := 0 to |items|
        invariant scriptsById == ScriptsById(items[..i])
      {
        assert items[..i + 1][..i] == items[..i];
        var item := items[i];
        if !item.JObj? {
          continue;
        }
        var scriptId := item.Get("id");
        if scriptId.Some? && scriptId.value.JStr? && scriptId.value.s != "" {
          scriptsById := scriptsById[scriptId.value.s := item.fields];
        }
      }
      assert items[..|items|] == items;
      return Success(scriptsById);
  }

  // ---------------------------------------------------------------- build_script_row

  /**
   * The `official` flag: a parseable CSV value, else the truthiness of the existing entry's
   * `official`, else membership of the known official ids.
   */
  function Official(row: CsvRow, existing: Entry, id: string): bool {
    match ParseOptionalBool(Lookup(row, "official"))
    case Some(b) => b
    case None =>
      if "official" in existing then existing["official"].PyTruthy()
      else id in KnownOfficialIds
  }

  /** The `background` the existing entry contributes: a string that is not blank. */
  function Background(existing: Entry): (r: Option<string>)
    ensures r.Some? <==> "background" in existing && existing["background"].JStr? && Strip(existing["background"].s) != ""
    ensures r.Some? ==> existing["background"] == JStr(r.value)
  {
    if "background" in existing && existing["background"].JStr? && Strip(existing["background"].s) != "" then
      Some(existing["background"].s)
    else None
  }

  /** `build_script_row`: no entry for a row whose cleaned id is empty. */
  function BuildScriptRow(row: CsvRow, existing: Entry): (r: Option<PublicScript>)
    ensures r.None? <==> Clean(row, "id") == ""
    ensures r.Some? ==>
      (r.value.id == Clean(row, "id") && r.value.name == Clean(row, "name")
       && r.value.author == Clean(row, "author") && r.value.synopsis == Clean(row, "synopsis")
       && r.value.json == Clean(row, "json") && r.value.pdf == Clean(row, "pdf") && r.value.note == Clean(row, "note"))
    ensures r.Some? ==> (r.value.logo.Some? <==> Clean(row, "logo") != "")
    ensures r.Some? && r.value.logo.Some? ==> r.value.logo.value == Clean(row, "logo")
    ensures r.Some? ==> r.value.teensyville == (ParseOptionalBool(Lookup(row, "teensyville")) == Some(true))
    ensures r.Some? ==> r.value.official == Official(row, existing, r.value.id)
    ensures r.Some? ==> r.value.background == Background(existing)
  {
    var id := Clean(row, "id");
    if id == "" then None
    else
      var logo := Clean(row, "logo");
      Some(PublicScript(
        Clean(row, "author"), Clean(row, "synopsis"), Clean(row, "name"), id,
        Clean(row, "pdf"), Clean(row, "json"), Clean(row, "note"),
        if logo != "" then Some(logo) else None,
        Official(row, existing, id),
        ParseOptionalBool(Lookup(row, "teensyville")) == Some(true),
        Background(existing)))
  }

  /** A CSV `official` value that parses decides the flag, whatever the existing file or the id say. */
  lemma OfficialFromCsv(row: CsvRow, existing: Entry, b: bool)
    requires ParseOptionalBool(Lookup(row, "official")) == Some(b)
    ensures BuildScriptRow(row, existing).Some? ==> BuildScriptRow(row, existing).value.official == b
  {
  }

  /** Without a parseable CSV value, the existing entry's `official` decides, even against the known ids. */
  lemma OfficialFromExisting(row: CsvRow, existing: Entry)
    requires ParseOptionalBool(Lookup(row, "official")).None? && "official" in existing
    ensures BuildScriptRow(row, existing).Some? ==> BuildScriptRow(row, existing).value.official == existing["official"].PyTruthy()
  {
  }

  lemma KnownOfficialMembers(id: string)
    ensures id in KnownOfficialIds <==> id == "trouble_brewing" || id == "bad_moon_rising" || id == "sects_and_violets"
  {
    if id in KnownOfficialIds {
      var i :| 0 <= i < |KnownOfficialIds| && KnownOfficialIds[i] == id;
    }
  }

  /** With neither, the three base editions are official and every other script is not. */
  lemma OfficialByDefault(row: CsvRow, existing: Entry)
    requires ParseOptionalBool(Lookup(row, "official")).None? && "official" !in existing
    ensures BuildScriptRow(row, existing).Some? ==>
      (BuildScriptRow(row, existing).value.official <==>
         (Clean(row, "id") == "trouble_brewing" || Clean(row, "id") == "bad_moon_rising" || Clean(row, "id") == "sects_and_violets"))
  {
    var id := Clean(row, "id");
    assert Official(row, existing, id) == (id in KnownOfficialIds);
    KnownOfficialMembers(id);
  }

  /** `teensyville` never comes from the existing file: the entry is the same whatever `existing` holds. */
  lemma TeensyvilleNotInherited(row: CsvRow, existing1: Entry, existing2: Entry)
    requires Clean(row, "id") != ""
    ensures BuildScriptRow(row, existing1).value.teensyville == BuildScriptRow(row, existing2).value.teensyville
  {
  }

  // ---------------------------------------------------------------- generate_scripts

  /** The entry of the existing file for a row (`existing_scripts.get(script_id, {})`). */
  function ExistingFor(byId: map<string, Entry>, id: string): Entry {
    if id in byId then byId[id] else map[]
  }

  function Generated(rows: seq<CsvRow>, byId: map<string, Entry>): seq<PublicScript> {
    if rows == [] then []
    else
      var row := rows[|rows| - 1];
      Generated(rows[..|rows| - 1], byId)
        + match BuildScriptRow(row, ExistingFor(byId, Clean(row, "id")))
          case Some(script) => [script]
          case None => []
  }

  /** `generate_scripts`, with the CSV rows already read and the existing file given. */
  method GenerateScripts(rows: seq<CsvRow>, existingFile: ExistingFile) returns (r: Result<seq<PublicScript>, LoadError>)
    ensures existingFile.Contents? && !existingFile.data.JArr? ==> r == Failure(NotAnArray)
    ensures existingFile.NoFile? ==> r == Success(Generated(rows, map[]))
    ensures existingFile.Contents? && existingFile.data.JArr? ==> r == Success(Generated(rows, ScriptsById(existingFile.data.items)))
  {
    var loaded := LoadExistingScripts(existingFile);
    if loaded.Failure? {
      return Failure(loaded.error);
    }
    var existingScripts := loaded.value;
    var generated: seq<PublicScript> := [];
    for i := 0 to |rows|
      invariant generated == Generated(rows[..i], existingScripts)
    {
      assert rows[..i + 1][..i] == rows[..i];
      var row := rows[i];
      var scriptId := Clean(row, "id");
      var existing := ExistingFor(existingScripts, scriptId);
      var script := BuildScriptRow(row, existing);
      if script.Some? {
        generated := generated + [script.value];
      }
    }
    assert rows[..|rows|] == rows;
    return Success(generated);
  }

  function RowIds(rows: seq<CsvRow>): (r: seq<string>)
    ensures |r| == |rows|
  {
    if rows == [] then [] else RowIds(rows[..|rows| - 1]) + [Clean(rows[|rows| - 1], "id")]
  }

  function ScriptIds(scripts: seq<PublicScript>): (r: seq<string>)
    ensures |r| == |scripts|
  {
    if scripts == [] then [] else ScriptIds(scripts[..|scripts| - 1]) + [scripts[|scripts| - 1].id]
  }

  /** The generated entries follow the CSV rows in order, dropping exactly those whose cleaned id is empty. */
  lemma {:induction false} GeneratedFollowsRows(rows: seq<CsvRow>, byId: map<string, Entry>)
    ensures ScriptIds(Generated(rows, byId)) == Filter(RowIds(rows), (id: string) => id != "")
  {
    if rows != [] {
      var init, row := rows[..|rows| - 1], rows[|rows| - 1];
      GeneratedFollowsRows(init, byId);
      var id := Clean(row, "id");
      assert RowIds(rows) == RowIds(init) + [id];
      assert RowIds(rows)[..|rows| - 1] == RowIds(init);
      FilterLast(RowIds(rows), (id: string) => id != "");
      var g := Generated(init, byId);
      match BuildScriptRow(row, ExistingFor(byId, id))
      case Some(script) =>
        assert Generated(rows, byId) == g + [script];
        assert (g + [script])[..|g|] == g;
      case None =>
        assert Generated(rows, byId) == g;
    }
  }
}
