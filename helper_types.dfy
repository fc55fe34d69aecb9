/**
 * The storyteller helper's data: teams, alignments, characters as a script lists them, the
 * information cards shown for a character, and the entries of a helper script.
 */
module HelperTypes {
  import opened Wrappers

  datatype Team = Townsfolk | Outsider | Minion | Demon | Traveler | Info

  datatype Alignment = Good | Evil

  datatype HelperTab = FirstNightTab | OtherNightTab | CharactersTab

  /** The teams a card about "any character" offers. */
  const AllTeam: seq<Team> := [Townsfolk, Outsider, Minion, Demon]

  /** The string value of each `Team` member. */
  function TeamName(t: Team): string {
    match t
    case Townsfolk => "townsfolk"
    case Outsider => "outsider"
    case Minion => "minion"
    case Demon => "demon"
    case Traveler => "traveler"
    case Info => "info"
  }

  /** The `Team` member with that string value, if any. */
  function TeamFromName(name: string): (r: Option<Team>)
    ensures r.Some? ==> TeamName(r.value) == name
    ensures forall t: Team :: TeamName(t) == name ==> r == Some(t)
  {
    if name == "townsfolk" then Some(Townsfolk)
    else if name == "outsider" then Some(Outsider)
    else if name == "minion" then Some(Minion)
    else if name == "demon" then Some(Demon)
    else if name == "traveler" then Some(Traveler)
    else if name == "info" then Some(Info)
    else None
  }

  /** A character (or a prebuilt night step); night numbers are JavaScript numbers. */
  datatype Character = Character(
    id: string,
    name: string,
    image: string,
    firstNight: real,
    firstNightReminder: string,
    otherNight: real,
    otherNightReminder: string,
    ability: string,
    team: Option<Team>)

  /** An information card; absent optional flags are `false`. */
  datatype HelperInfo = HelperInfo(
    title: string,
    message: string,
    teams: Option<seq<Team>>,
    count: Option<int>,
    isAlignment: bool,
    isNumber: bool,
    isText: bool,
    isBoolean: bool)

  /** A card with only a title and a message. */
  function Card(title: string, message: string): HelperInfo {
    HelperInfo(title, message, None, None, false, false, false, false)
  }

  /** A card asking for `count` characters from `teams`. */
  function PickCard(title: string, message: string, teams: seq<Team>, count: int): HelperInfo {
    HelperInfo(title, message, Some(teams), Some(count), false, false, false, false)
  }

  datatype HelperScriptMeta = HelperScriptMeta(author: string, id: string, isOfficial: bool, name: string)

  /** An entry of a helper script: a character, or the script's meta entry. */
  datatype HelperEntry = CharacterEntry(character: Character) | ScriptMetaEntry(meta: HelperScriptMeta)
}
