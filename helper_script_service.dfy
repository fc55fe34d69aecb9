/**
 * `fetchHelperScriptEntries`: the JSON array of a helper script is turned into helper entries.
 * The script's meta entry is kept as it is, every other item must be an object with a string
 * `id` other than `_meta` and is normalised into a character (missing text fields become `""`,
 * missing night numbers `0`, an unknown team is dropped), and each character with a local icon
 * gets that icon as its image. Any malformed item makes the whole script malformed.
 *
 * The fetch itself is modelled in `FetchRetry`; here the parsed response is an input. The type
 * guards `isHelperScriptMeta` and `isHelperEntry` and the icon lookup `getRoleIconUrl` are
 * parameters.
 */
module HelperScriptService {
  import opened Wrappers
  import opened Json
  import opened HelperTypes

  /** The error message thrown for a malformed script. */
  const FormatError: string := "스크립트 데이터 형식이 올바르지 않습니다"

  /** `isRecord`: `typeof value === 'object' && value !== null`, which arrays also pass. */
  predicate IsRecord(value: Json) {
    value.JObj? || value.JArr?
  }

  /** `typeof item[key] === 'number' ? item[key] : 0`. */
  function NumberOr0(item: Json, key: string): real {
    match item.Get(key)
    case Some(JNum(n)) => n
    case _ => 0.0
  }

  /** `normalizeCharacterEntry`. */
  function NormalizeCharacterEntry(item: Json): (r: Option<Character>)
    ensures r.Some? <==> item.GetString("id").Some? && item.GetString("id").value != "_meta"
    ensures r.Some? ==> r.value.id == item.GetString("id").value
    ensures r.Some? ==> (r.value.team.Some? <==>
      item.GetString("team").Some? && TeamFromName(item.GetString("team").value).Some?)
    ensures r.Some? && r.value.team.Some? ==> item.GetString("team") == Some(TeamName(r.value.team.value))
  {
    match item.GetString("id")
    case None => None
    case Some(id) =>
      if id == "_meta" then None
      else
        var team := match item.GetString("team") case Some(t) => TeamFromName(t) case None => None;
        Some(Character(
          id,
          item.GetString("name").GetOr(""),
          item.GetString("image").GetOr(""),
          NumberOr0(item, "firstNight"),
          item.GetString("firstNightReminder").GetOr(""),
          NumberOr0(item, "otherNight"),
          item.GetString("otherNightReminder").GetOr(""),
          item.GetString("ability").GetOr(""),
          team))
  }

  /** The JSON object a well-formed script holds for a character. */
  function CharacterJson(c: Character): Json {
    var fields := map[
      "id" := JStr(c.id), "name" := JStr(c.name), "image" := JStr(c.image),
      "firstNight" := JNum(c.firstNight), "firstNightReminder" := JStr(c.firstNightReminder),
      "otherNight" := JNum(c.otherNight), "otherNightReminder" := JStr(c.otherNightReminder),
      "ability" := JStr(c.ability)];
    match c.team
    case Some(t) => JObj(fields["team" := JStr(TeamName(t))])
    case None => JObj(fields)
  }

  /** Normalising the JSON of a character gives that character back. */
  lemma CharacterJsonRoundTrip(c: Character)
    requires c.id != "_meta"
    ensures NormalizeCharacterEntry(CharacterJson(c)) == Some(c)
  {
    CharacterJsonFields(c);
  }

  /** Each field of a character can be read back from its JSON object. */
  lemma CharacterJsonFields(c: Character)
    ensures var j := CharacterJson(c);
      j.GetString("id") == Some(c.id) && j.GetString("name") == Some(c.name)
      && j.GetString("image") == Some(c.image) && j.GetString("ability") == Some(c.ability)
      && j.GetString("firstNightReminder") == Some(c.firstNightReminder)
      && j.GetString("otherNightReminder") == Some(c.otherNightReminder)
      && NumberOr0(j, "firstNight") == c.firstNight && NumberOr0(j, "otherNight") == c.otherNight
      && j.GetString("team") == (if c.team.Some? then Some(TeamName(c.team.value)) else None)
  {
    CharacterJsonNames(c);
    CharacterJsonNights(c);
  }

  /** The identifying and descriptive fields of a character read back from its JSON object. */
  lemma CharacterJsonNames(c: Character)
    ensures var j := CharacterJson(c);
      j.GetString("id") == Some(c.id) && j.GetString("name") == Some(c.name)
      && j.GetString("image") == Some(c.image) && j.GetString("ability") == Some(c.ability)
      && j.GetString("team") == (if c.team.Some? then Some(TeamName(c.team.value)) else None)
  {
    var j := CharacterJson(c);
    assert j.GetString("id") == Some(c.id);
    assert j.GetString("name") == Some(c.name);
    assert j.GetString("image") == Some(c.image);
    assert j.GetString("ability") == Some(c.ability);
    match c.team {
      case Some(t) =>
        assert j.GetString("team") == Some(TeamName(t));
      case None =>
        assert j.GetString("team") == None;
    }
  }

  /** The night order fields of a character read back from its JSON object. */
  lemma CharacterJsonNights(c: Character)
    ensures var j := CharacterJson(c);
      j.GetString("firstNightReminder") == Some(c.firstNightReminder)
      && j.GetString("otherNightReminder") == Some(c.otherNightReminder)
      && NumberOr0(j, "firstNight") == c.firstNight && NumberOr0(j, "otherNight") == c.otherNight
  {
    var j := CharacterJson(c);
    assert j.GetString("firstNightReminder") == Some(c.firstNightReminder);
    assert j.GetString("otherNightReminder") == Some(c.otherNightReminder);
    assert NumberOr0(j, "firstNight") == c.firstNight;
    assert NumberOr0(j, "otherNight") == c.otherNight;
  }

  /** Normalisation is idempotent: a normalised character is already in normal form. */
  lemma NormalizeCharacterIdempotent(item: Json)
    requires NormalizeCharacterEntry(item).Some?
    ensures NormalizeCharacterEntry(CharacterJson(NormalizeCharacterEntry(item).value)) == NormalizeCharacterEntry(item)
  {
    CharacterJsonRoundTrip(NormalizeCharacterEntry(item).value);
  }

  /** One iteration of the loop of `normalizeHelperEntries`: the entry pushed, or `None` for `return null`. */
  function NormalizeItem(item: Json, asMeta: Json -> Option<HelperScriptMeta>): (r: Option<HelperEntry>)
    ensures asMeta(item).Some? ==> r == Some(ScriptMetaEntry(asMeta(item).value))
    ensures asMeta(item).None? ==>
      (r.Some? <==> IsRecord(item) && NormalizeCharacterEntry(item).Some?) &&
      (r.Some? ==> r == Some(CharacterEntry(NormalizeCharacterEntry(item).value)))
  {
    if asMeta(item).Some? then Some(ScriptMetaEntry(asMeta(item).value))
    else if !IsRecord(item) then None
    else match NormalizeCharacterEntry(item)
      case None => None
      case Some(c) => Some(CharacterEntry(c))
  }

  /** Every item of the array normalises. */
  predicate AllItemsNormalize(data: seq<Json>, asMeta: Json -> Option<HelperScriptMeta>) {
    forall i | 0 <= i < |data| :: NormalizeItem(data[i], asMeta).Some?
  }

  /** Every item normalises and every normalised entry passes `isHelperEntry`. */
  predicate Accepted(data: seq<Json>, asMeta: Json -> Option<HelperScriptMeta>, isHelperEntry: HelperEntry -> bool) {
    AllItemsNormalize(data, asMeta) &&
    forall i | 0 <= i < |data| :: isHelperEntry(NormalizeItem(data[i], asMeta).value)
  }

  /** `normalizeHelperEntries`: the loop pushes one entry per item and gives up at the first bad item. */
  method NormalizeHelperEntries(data: seq<Json>, asMeta: Json -> Option<HelperScriptMeta>, isHelperEntry: HelperEntry -> bool)
    returns (r: Option<seq<HelperEntry>>)
    ensures r.Some? <==> Accepted(data, asMeta, isHelperEntry)
    ensures r.Some? ==> |r.value| == |data|
    ensures r.Some? ==> forall i | 0 <= i < |data| :: Some(r.value[i]) == NormalizeItem(data[i], asMeta)
  {
    var normalized: seq<HelperEntry> := [];
    var i := 0;
    while i < |data|
      invariant 0 <= i <= |data|
      invariant |normalized| == i
      invariant forall k | 0 <= k < i :: Some(normalized[k]) == NormalizeItem(data[k], asMeta)
    {
      var item := data[i];
      var meta := asMeta(item);
      if meta.Some? {
        normalized := normalized + [ScriptMetaEntry(meta.value)];
        i := i + 1;
        continue;
      }
      if !IsRecord(item) {
        return None;
      }
      var characterEntry := NormalizeCharacterEntry(item);
      if characterEntry.None? {
        return None;
      }
      normalized := normalized + [CharacterEntry(characterEntry.value)];
      i := i + 1;
    }
    var j := 0;
    while j < |normalized|
      invariant 0 <= j <= |normalized|
      invariant forall k | 0 <= k < j :: isHelperEntry(normalized[k])
    {
      if !isHelperEntry(normalized[j]) {
        return None;
      }
      j := j + 1;
    }
    return Some(normalized);
  }

  /** `getRoleIconUrl(id)` is truthy: an icon URL that is not empty. */
  predicate HasLocalIcon(id: string, roleIconUrl: string -> Option<string>) {
    roleIconUrl(id).Some? && roleIconUrl(id).value != ""
  }

  /** The callback of `applyLocalIconFallback` for one entry. */
  function WithLocalIcon(entry: HelperEntry, roleIconUrl: string -> Option<string>): (r: HelperEntry)
    ensures r.CharacterEntry? <==> entry.CharacterEntry?
    ensures entry.CharacterEntry? ==> r.character == entry.character.(image := r.character.image)
    ensures entry.CharacterEntry? && HasLocalIcon(entry.character.id, roleIconUrl) ==>
      r.character.image == roleIconUrl(entry.character.id).value
    ensures !(entry.CharacterEntry? && HasLocalIcon(entry.character.id, roleIconUrl)) ==> r == entry
  {
    if !entry.CharacterEntry? then entry
    else if !HasLocalIcon(entry.character.id, roleIconUrl) then entry
    else CharacterEntry(entry.character.(image := roleIconUrl(entry.character.id).value))
  }

  /** `applyLocalIconFallback`: a `map` over the entries. */
  function ApplyLocalIconFallback(entries: seq<HelperEntry>, roleIconUrl: string -> Option<string>): (r: seq<HelperEntry>)
    ensures |r| == |entries|
    ensures forall i | 0 <= i < |entries| :: r[i] == WithLocalIcon(entries[i], roleIconUrl)
  {
    if entries == [] then []
    else [WithLocalIcon(entries[0], roleIconUrl)] + ApplyLocalIconFallback(entries[1..], roleIconUrl)
  }

  /** Applying the icon fallback a second time changes nothing: the ids it looks up are unchanged. */
  lemma IconFallbackIdempotent(entries: seq<HelperEntry>, roleIconUrl: string -> Option<string>)
    ensures ApplyLocalIconFallback(ApplyLocalIconFallback(entries, roleIconUrl), roleIconUrl)
         == ApplyLocalIconFallback(entries, roleIconUrl)
  {
    var once := ApplyLocalIconFallback(entries, roleIconUrl);
    var twice := ApplyLocalIconFallback(once, roleIconUrl);
    forall i | 0 <= i < |entries| ensures twice[i] == once[i] {
      if entries[i].CharacterEntry? {
        assert once[i].character.id == entries[i].character.id;
      }
    }
  }

  /** `fetchHelperScriptEntries` after the fetch: the response must be an array of well-formed entries. */
  method FetchHelperScriptEntries(data: Json, asMeta: Json -> Option<HelperScriptMeta>, isHelperEntry: HelperEntry -> bool,
                                  roleIconUrl: string -> Option<string>)
    returns (r: Result<seq<HelperEntry>, string>)
    ensures !data.JArr? ==> r == Failure(FormatError)
    ensures r.Failure? ==> r.error == FormatError
    ensures r.Success? <==> (data.JArr? && Accepted(data.items, asMeta, isHelperEntry))
    ensures r.Success? ==> |r.value| == |data.items|
    ensures r.Success? ==> forall i | 0 <= i < |data.items| ::
      r.value[i] == WithLocalIcon(NormalizeItem(data.items[i], asMeta).value, roleIconUrl)
  {
    if !data.JArr? {
      return Failure(FormatError);
    }
    var normalizedEntries := NormalizeHelperEntries(data.items, asMeta, isHelperEntry);
    if normalizedEntries.None? {
      return Failure(FormatError);
    }
    return Success(ApplyLocalIconFallback(normalizedEntries.value, roleIconUrl));
  }

  /** The items the meta guard does not recognise become characters, with the item's own id. */
  lemma LoadedCharactersKeepIds(data: Json, asMeta: Json -> Option<HelperScriptMeta>, i: int)
    requires data.JArr? && 0 <= i < |data.items| && AllItemsNormalize(data.items, asMeta)
    requires asMeta(data.items[i]).None?
    ensures NormalizeItem(data.items[i], asMeta).value.CharacterEntry?
    ensures data.items[i].GetString("id") == Some(NormalizeItem(data.items[i], asMeta).value.character.id)
    ensures NormalizeItem(data.items[i], asMeta).value.character.id != "_meta"
  {
    assert NormalizeItem(data.items[i], asMeta).Some?;
  }

  /** An item that is neither the meta entry nor an object with a usable id makes the script malformed. */
  lemma MalformedItemRejects(data: seq<Json>, asMeta: Json -> Option<HelperScriptMeta>, i: int)
    requires 0 <= i < |data| && asMeta(data[i]).None?
    requires !IsRecord(data[i]) || data[i].GetString("id").None? || data[i].GetString("id") == Some("_meta")
    ensures !AllItemsNormalize(data, asMeta)
  {
    assert NormalizeItem(data[i], asMeta).None?;
  }
}
