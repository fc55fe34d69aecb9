/**
 * The PDF generator's data pre-processing: the script metadata, the list of characters with a
 * known team, and the grouping of characters into team sections in `TeamType` order.
 */
module PdfData {
  import opened Wrappers
  import opened Json

  /** A dictionary of the input JSON array. */
  type Item = map<string, Json>

  /** `TeamType`, in declaration order. */
  datatype Team = Townsfolk | Outsider | Minion | Demon | Fabled

  const TeamOrder: seq<Team> := [Townsfolk, Outsider, Minion, Demon, Fabled]

  /** `META_ID`. */
  const MetaId: string := "_meta"

  /** The team named by a value (`VALID_TEAMS` holds exactly the values of `TeamType`). */
  function TeamOf(value: Json): (r: Option<Team>)
    ensures r.Some? ==> value.JStr?
  {
    match value
    case JStr(s) =>
      if s == "townsfolk" then Some(Townsfolk)
      else if s == "outsider" then Some(Outsider)
      else if s == "minion" then Some(Minion)
      else if s == "demon" then Some(Demon)
      else if s == "fabled" then Some(Fabled)
      else None
    case _ => None
  }

  /** `item.get(key, default)`. */
  function GetOr(item: Item, key: string, default: Json): (r: Json)
    ensures key in item ==> r == item[key]
    ensures key !in item ==> r == default
  {
    if key in item then item[key] else default
  }

  /** `item.get("id") == META_ID`. */
  predicate IsMetaItem(item: Item) {
    "id" in item && item["id"] == JStr(MetaId)
  }

  datatype MetaData = MetaData(name: Json, author: Option<Json>)

  datatype CharacterData = CharacterData(id: Json, name: Json, ability: Json, team: Team, imageUrl: Option<Json>)

  datatype PdfInput = PdfInput(meta: MetaData, characters: seq<CharacterData>)

  datatype TeamSection = TeamSection(team: Team, characters: seq<CharacterData>)

  datatype DataValidationError = EmptyInput

  // ---------------------------------------------------------------- _extract_meta_data

  /** The first meta item (`next(...)`). */
  function FirstMetaItem(raw: seq<Item>): (r: Option<Item>)
    ensures r.Some? ==> IsMetaItem(r.value) && r.value in raw
    ensures r.None? <==> forall i | 0 <= i < |raw| :: !IsMetaItem(raw[i])
  {
    if raw == [] then None
    else if IsMetaItem(raw[0]) then Some(raw[0])
    else
      var r := FirstMetaItem(raw[1..]);
      assert forall i | 1 <= i < |raw| :: raw[i] == raw[1..][i - 1];
      r
  }

  /** The item `FirstMetaItem` returns precedes every other meta item. */
  lemma {:induction false} FirstMetaItemIsFirst(raw: seq<Item>)
    requires FirstMetaItem(raw).Some?
    ensures exists i | 0 <= i < |raw| :: raw[i] == FirstMetaItem(raw).value && forall j | 0 <= j < i :: !IsMetaItem(raw[j])
  {
    if IsMetaItem(raw[0]) {
      assert raw[0] == FirstMetaItem(raw).value;
    } else {
      FirstMetaItemIsFirst(raw[1..]);
      var i :| 0 <= i < |raw[1..]| && raw[1..][i] == FirstMetaItem(raw[1..]).value
        && forall j | 0 <= j < i :: !IsMetaItem(raw[1..][j]);
      assert raw[i + 1] == FirstMetaItem(raw).value;
      forall j | 0 <= j < i + 1 ensures !IsMetaItem(raw[j]) {
        if j > 0 {
          assert raw[j] == raw[1..][j - 1];
        }
      }
    }
  }

  /** `_extract_meta_data`: the first meta item's name (default `""`) and author, or an unknown script. */
  function ExtractMetaData(raw: seq<Item>): (r: MetaData)
    ensures FirstMetaItem(raw).None? ==> r == MetaData(JStr("Unknown"), None)
    ensures FirstMetaItem(raw).Some? ==>
      r.name == GetOr(FirstMetaItem(raw).value, "name", JStr("")) && r.author == Lookup(FirstMetaItem(raw).value, "author")
  {
    match FirstMetaItem(raw)
    case None => MetaData(JStr("Unknown"), None)
    case Some(item) => MetaData(GetOr(item, "name", JStr("")), Lookup(item, "author"))
  }

  // ---------------------------------------------------------------- _extract_characters

  /** The team of an item that becomes a character: non-empty, not the meta item, with a valid team. */
  function CharacterTeam(item: Item): (r: Option<Team>)
    ensures r.Some? ==> item != map[] && !IsMetaItem(item) && "team" in item && TeamOf(item["team"]) == r
  {
    if item == map[] || IsMetaItem(item) then None
    else if "team" in item then TeamOf(item["team"])
    else None
  }

  predicate IsCharacterItem(item: Item) {
    CharacterTeam(item).Some?
  }

  /** `CharacterData(...)` with the defaults of `_extract_characters`. */
  function MakeCharacter(item: Item, team: Team): (c: CharacterData)
    ensures c.id == GetOr(item, "id", JStr("")) && c.name == GetOr(item, "name", JStr("N/A"))
    ensures c.ability == GetOr(item, "ability", JStr("N/A")) && c.team == team && c.imageUrl == Lookup(item, "image")
  {
    CharacterData(GetOr(item, "id", JStr("")), GetOr(item, "name", JStr("N/A")), GetOr(item, "ability", JStr("N/A")), team, Lookup(item, "image"))
  }

  function ExtractedCharacters(raw: seq<Item>): (r: seq<CharacterData>)
    ensures |r| <= |raw|
  {
    if raw == [] then []
    else
      var last := raw[|raw| - 1];
      ExtractedCharacters(raw[..|raw| - 1])
        + match CharacterTeam(last)
          case Some(team) => [MakeCharacter(last, team)]
          case None => []
  }

  /** The characters, in input order: one for each character item and none for any other item. */
  lemma {:induction false} ExtractedCharactersKept(raw: seq<Item>)
    ensures |ExtractedCharacters(raw)| == CountCharacterItems(raw)
    ensures forall c | c in ExtractedCharacters(raw) :: c.id != JStr(MetaId)
  {
    if raw != [] {
      ExtractedCharactersKept(raw[..|raw| - 1]);
    }
  }

  function CountCharacterItems(raw: seq<Item>): (n: nat)
    ensures n <= |raw|
  {
    if raw == [] then 0
    else CountCharacterItems(raw[..|raw| - 1]) + (if IsCharacterItem(raw[|raw| - 1]) then 1 else 0)
  }

  /** `_extract_characters`. */
  method ExtractCharacters(raw: seq<Item>) returns (characters: seq<CharacterData>)
    ensures characters == ExtractedCharacters(raw)
  {
    characters := [];
    for i := 0 to |raw|
      invariant characters == ExtractedCharacters(raw[..i])
    {
      assert raw[..i + 1][..i] == raw[..i];
      var item := raw[i];
      if item == map[] || IsMetaItem(item) {
        continue;
      }
      var team := if "team" in item then TeamOf(item["team"]) else None;
      if team.None? {
        continue;
      }
      characters := characters + [MakeCharacter(item, team.value)];
    }
    assert raw[..|raw|] == raw;
  }

  // ---------------------------------------------------------------- validate_and_process_data

  /** `validate_and_process_data`: empty input is rejected. */
  method ValidateAndProcessData(raw: seq<Item>) returns (r: Result<PdfInput, DataValidationError>)
    ensures raw == [] <==> r.Failure?
    ensures r.Success? ==> r.value == PdfInput(ExtractMetaData(raw), ExtractedCharacters(raw))
  {
    if raw == [] {
      return Failure(EmptyInput);
    }
    var meta := ExtractMetaData(raw);
    var characters := ExtractCharacters(raw);
    return Success(PdfInput(meta, characters));
  }

  // ---------------------------------------------------------------- group_characters_by_team

  /** The characters of one team, in input order. */
  function OfTeam(characters: seq<CharacterData>, team: Team): (r: seq<CharacterData>)
    ensures |r| <= |characters|
    ensures forall c | c in r :: c.team == team && c in characters
  {
    if characters == [] then []
    else
      var last := characters[|characters| - 1];
      OfTeam(characters[..|characters| - 1], team) + (if last.team == team then [last] else [])
  }

  /** A team's list is empty exactly when no character is on that team. */
  lemma {:induction false} OfTeamEmpty(characters: seq<CharacterData>, team: Team)
    ensures OfTeam(characters, team) == [] <==> forall c | c in characters :: c.team != team
  {
    if characters != [] {
      var init := characters[..|characters| - 1];
      OfTeamEmpty(init, team);
      assert characters == init + [characters[|characters| - 1]];
    }
  }

  /** Each character occurs in its own team's list as often as in the input, and in no other. */
  lemma {:induction false} OfTeamCount(characters: seq<CharacterData>, team: Team, c: CharacterData)
    ensures multiset(OfTeam(characters, team))[c] == if c.team == team then multiset(characters)[c] else 0
  {
    if characters != [] {
      var init, last := characters[..|characters| - 1], characters[|characters| - 1];
      OfTeamCount(init, team, c);
      assert characters == init + [last];
    }
  }

  /** The sections for the teams `teams`, skipping empty ones. */
  function SectionsOver(teams: seq<Team>, characters: seq<CharacterData>): (r: seq<TeamSection>)
    ensures |r| <= |teams|
    ensures forall s | s in r :: s.team in teams && s.characters == OfTeam(characters, s.team) && s.characters != []
  {
    if teams == [] then []
    else
      var team := teams[|teams| - 1];
      var group := OfTeam(characters, team);
      SectionsOver(teams[..|teams| - 1], characters) + (if group != [] then [TeamSection(team, group)] else [])
  }

  /** One more team: its section is appended when it has characters. */
  lemma SectionsOverStep(teams: seq<Team>, characters: seq<CharacterData>, k: nat)
    requires k < |teams|
    ensures var group := OfTeam(characters, teams[k]);
      SectionsOver(teams[..k + 1], characters)
        == SectionsOver(teams[..k], characters) + (if group != [] then [TeamSection(teams[k], group)] else [])
  {
    assert teams[..k + 1][..k] == teams[..k];
  }

  function Sections(characters: seq<CharacterData>): seq<TeamSection> {
    SectionsOver(TeamOrder, characters)
  }

  /** The position of a team in `TeamType`. */
  function Rank(team: Team): (r: nat)
    ensures r < |TeamOrder| && TeamOrder[r] == team
  {
    match team
    case Townsfolk => 0
    case Outsider => 1
    case Minion => 2
    case Demon => 3
    case Fabled => 4
  }

  /** Sections in strictly increasing `TeamType` order, so each team at most once. */
  predicate InTeamOrder(s: seq<TeamSection>) {
    forall i, j | 0 <= i < j < |s| :: Rank(s[i].team) < Rank(s[j].team)
  }

  /** The sections follow `TeamType` order, each team at most once. */
  lemma {:induction false} SectionsOrdered(characters: seq<CharacterData>)
    ensures InTeamOrder(Sections(characters))
  {
    TeamOrderRanks();
    assert forall i, j | 0 <= i < j < |TeamOrder| :: Rank(TeamOrder[i]) < Rank(TeamOrder[j]);
    SectionsOverOrdered(TeamOrder, characters);
    assert Sections(characters) == SectionsOver(TeamOrder, characters);
  }

  lemma TeamOrderRanks()
    ensures forall i | 0 <= i < |TeamOrder| :: Rank(TeamOrder[i]) == i
  {
    assert Rank(TeamOrder[0]) == 0 && Rank(TeamOrder[1]) == 1 && Rank(TeamOrder[2]) == 2;
    assert Rank(TeamOrder[3]) == 3 && Rank(TeamOrder[4]) == 4;
  }

  lemma {:induction false} SectionsOverOrdered(teams: seq<Team>, characters: seq<CharacterData>)
    requires forall i, j | 0 <= i < j < |teams| :: Rank(teams[i]) < Rank(teams[j])
    ensures InTeamOrder(SectionsOver(teams, characters))
  {
    if teams != [] {
      var init := teams[..|teams| - 1];
      SectionsOverOrdered(init, characters);
      var s := SectionsOver(teams, characters);
      var before := SectionsOver(init, characters);
      var last := teams[|teams| - 1];
      var group := OfTeam(characters, last);
      assert s == before + (if group != [] then [TeamSection(last, group)] else []);
      forall i, j | 0 <= i < j < |s| ensures Rank(s[i].team) < Rank(s[j].team) {
        assert i < |before|;
        assert s[i] == before[i];
        if j < |before| {
          assert s[j] == before[j];
          assert Rank(before[i].team) < Rank(before[j].team);
        } else {
          assert s[j].team == last;
          assert before[i] in before;
          assert before[i].team in init;
          var k :| 0 <= k < |init| && init[k] == s[i].team;
          assert teams[k] == init[k];
          assert Rank(teams[k]) < Rank(teams[|teams| - 1]);
        }
      }
    }
  }

  /** A team has a section exactly when some character is on it. */
  lemma {:induction false} SectionPresent(characters: seq<CharacterData>, team: Team)
    ensures (exists s | s in Sections(characters) :: s.team == team) <==> exists c | c in characters :: c.team == team
  {
    OfTeamEmpty(characters, team);
    SectionsOverPresent(TeamOrder, characters, team);
  }

  lemma {:induction false} SectionsOverPresent(teams: seq<Team>, characters: seq<CharacterData>, team: Team)
    ensures (exists s | s in SectionsOver(teams, characters) :: s.team == team) <==> team in teams && OfTeam(characters, team) != []
  {
    if teams != [] {
      var init := teams[..|teams| - 1];
      SectionsOverPresent(init, characters, team);
      assert teams == init + [teams[|teams| - 1]];
      var last := teams[|teams| - 1];
      if last == team && OfTeam(characters, team) != [] {
        var s := SectionsOver(teams, characters);
        assert s[|s| - 1].team == team;
      }
    }
  }

  /** The characters of all sections, in section order. */
  function Flatten(sections: seq<TeamSection>): seq<CharacterData> {
    if sections == [] then [] else Flatten(sections[..|sections| - 1]) + sections[|sections| - 1].characters
  }

  function Members(teams: seq<Team>, characters: seq<CharacterData>, c: CharacterData): nat {
    if teams == [] then 0
    else Members(teams[..|teams| - 1], characters, c) + multiset(OfTeam(characters, teams[|teams| - 1]))[c]
  }

  lemma {:induction false} FlattenCount(teams: seq<Team>, characters: seq<CharacterData>, c: CharacterData)
    ensures multiset(Flatten(SectionsOver(teams, characters)))[c] == Members(teams, characters, c)
  {
    if teams != [] {
      var init := teams[..|teams| - 1];
      FlattenCount(init, characters, c);
      var before := SectionsOver(init, characters);
      var group := OfTeam(characters, teams[|teams| - 1]);
      if group != [] {
        var s := SectionsOver(teams, characters);
        assert s == before + [TeamSection(teams[|teams| - 1], group)];
        assert s[..|s| - 1] == before;
        assert Flatten(s) == Flatten(before) + group;
      } else {
        assert SectionsOver(teams, characters) == before;
      }
    }
  }

  /** Over distinct teams, a character is counted once if its team is among them and not at all otherwise. */
  lemma {:induction false} MembersCount(teams: seq<Team>, characters: seq<CharacterData>, c: CharacterData)
    requires forall i, j | 0 <= i < j < |teams| :: teams[i] != teams[j]
    ensures Members(teams, characters, c) == if c.team in teams then multiset(characters)[c] else 0
  {
    if teams != [] {
      var init, last := teams[..|teams| - 1], teams[|teams| - 1];
      MembersCount(init, characters, c);
      OfTeamCount(characters, last, c);
      assert teams == init + [last];
      if c.team == last {
        assert c.team !in init by {
          forall k | 0 <= k < |init| ensures init[k] != last {
            assert init[k] == teams[k];
          }
        }
      }
    }
  }

  /** Grouping is a partition: every character lands in exactly one section, as often as it occurs. */
  lemma SectionsPartition(characters: seq<CharacterData>)
    ensures multiset(Flatten(Sections(characters))) == multiset(characters)
  {
    TeamOrderRanks();
    forall c ensures multiset(Flatten(Sections(characters)))[c] == multiset(characters)[c] {
      FlattenCount(TeamOrder, characters, c);
      MembersCount(TeamOrder, characters, c);
      assert TeamOrder[Rank(c.team)] == c.team;
    }
  }

  /** The first two loops of `group_characters_by_team`: an empty group per team, then each character appended to its team's. */
  method GroupsOf(characters: seq<CharacterData>) returns (teamGroups: map<Team, seq<CharacterData>>)
    ensures forall t: Team :: t in teamGroups && teamGroups[t] == OfTeam(characters, t)
  {
    teamGroups := map[];
    for k := 0 to |TeamOrder|
      invariant forall t | t in TeamOrder[..k] :: t in teamGroups && teamGroups[t] == []
    {
      teamGroups := teamGroups[TeamOrder[k] := []];
    }
    assert characters[..0] == [];
    forall t: Team ensures t in teamGroups && teamGroups[t] == OfTeam(characters[..0], t) {
      assert TeamOrder[..|TeamOrder|][Rank(t)] == t;
    }
    for i := 0 to |characters|
      invariant forall t: Team :: t in teamGroups && teamGroups[t] == OfTeam(characters[..i], t)
    {
      assert characters[..i + 1][..i] == characters[..i];
      var character := characters[i];
      teamGroups := teamGroups[character.team := teamGroups[character.team] + [character]];
    }
    assert characters[..|characters|] == characters;
  }

  /** `group_characters_by_team`: fill one list per team, then emit the non-empty ones in `TeamType` order. */
  method GroupCharactersByTeam(characters: seq<CharacterData>) returns (sections: seq<TeamSection>)
    ensures sections == Sections(characters)
  {
    var teamGroups := GroupsOf(characters);
    sections := [];
    for k := 0 to |TeamOrder|
      invariant sections == SectionsOver(TeamOrder[..k], characters)
    {
      SectionsOverStep(TeamOrder, characters, k);
      var team := TeamOrder[k];
      if teamGroups[team] != [] {
        sections := sections + [TeamSection(team, teamGroups[team])];
      }
    }
    assert TeamOrder[..|TeamOrder|] == TeamOrder;
  }
}
