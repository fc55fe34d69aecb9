/**
 * The game tracker's data: the game logs saved by the online grimoire, the players they list,
 * and the metadata looked up for each role. Role definitions and editions are kept as parsed JSON.
 */
module TrackerTypes {
  import opened Wrappers
  import opened Json

  datatype Alignment = Good | Evil

  /** A player of a logged game; `roleName` and `roleImage` are filled in when the log is loaded. */
  datatype Player = Player(
    name: string,
    role: string,
    id: string,
    isDead: bool,
    alignmentIndex: real,
    reminders: seq<Json>,
    roleName: Option<string>,
    roleImage: Option<string>)

  /**
   * The `roles` key of a saved log: missing, present as `null`, or an array of role definitions.
   * A default parameter value replaces only a missing value, while `?? []` replaces both.
   */
  datatype RolesField = NoRoles | NullRoles | Roles(definitions: seq<Json>)

  /** `roles ?? []`: the definitions, or none when the key is missing or `null`. */
  function RolesOrEmpty(roles: RolesField): seq<Json> {
    if roles.Roles? then roles.definitions else []
  }

  /**
   * A log file as saved. `players` is `None` when the file has no players array (reading it then
   * throws).
   */
  datatype RawGameLog = RawGameLog(
    edition: Json,
    players: Option<seq<Player>>,
    bluffs: seq<string>,
    roles: RolesField,
    npcs: Option<seq<Json>>)

  /** A loaded log: the saved fields, the enriched players, and the fields computed from the file name. */
  datatype GameLog = GameLog(
    edition: Json,
    players: seq<Player>,
    bluffs: seq<string>,
    roles: RolesField,
    npcs: Option<seq<Json>>,
    date: string,
    winner: Alignment,
    id: string)

  /** A JSON module: the log itself, or a module whose `default` export is the log. */
  datatype LogModule = PlainLog(log: RawGameLog) | DefaultExport(default: RawGameLog)

  /** `resolveRawLog`. */
  function ResolveRawLog(moduleValue: LogModule): RawGameLog {
    match moduleValue
    case PlainLog(log) => log
    case DefaultExport(log) => log
  }

  /** What is remembered about a role: its display name, its icon URL and its team, if any. */
  datatype RoleMetadata = RoleMetadata(name: string, image: string, team: Option<string>)
}
