/**
 * `fetchGameLogs` of the tracker feature: every log file found by the glob becomes one loaded log,
 * whose id is the file name, whose date comes from the name, whose players carry their role's name
 * and icon, and whose winner is decided from the name or from an alive demon. If reading any file
 * throws, no log at all is returned.
 *
 * The glob's result is the parameter `entries` (path and module, in iteration order); the icon
 * lookup `getRoleIconUrl` is the parameter `roleIconUrl`. Here the team of a role is an unchecked
 * cast (`UncheckedTeam`).
 */
module TrackerApi {
  import opened Wrappers
  import opened Json
  import opened Strings
  import opened TrackerTypes
  import opened LogParser

  /**
   * Loading the log does not throw: it has a players array, its `roles` is not `null` (the
   * default parameter `roles = []` stands in only for a missing key) and no role definition is `null`.
   */
  predicate Loadable(raw: RawGameLog) {
    raw.players.Some? && !raw.roles.NullRoles? && ReadableRoles(RolesOrEmpty(raw.roles))
  }

  /** The loaded log of `raw` read under the file name of `path`, with `roles` as its role definitions. */
  function LogFromRoles(path: string, raw: RawGameLog, roles: seq<Json>, roleIconUrl: string -> Option<string>): GameLog
    requires raw.players.Some? && ReadableRoles(roles)
  {
    var fileName := GetLogFileNameFromPath(path);
    var roleMetadataById := RoleMetadataOf(roles, roleIconUrl, UncheckedTeam);
    var demonRoleIds := DemonRoleIdsOf(roles, roleIconUrl, UncheckedTeam);
    var enhancedPlayers := EnrichPlayersWithRoleMetadata(raw.players.value, roleMetadataById);
    GameLog(raw.edition, enhancedPlayers, raw.bluffs, raw.roles, raw.npcs, ParseDateFromFilename(fileName),
            ResolveWinner(fileName, enhancedPlayers, demonRoleIds), fileName)
  }

  /** The callback of the `map` in `fetchGameLogs` for one glob entry; `None` when it throws. */
  function BuildGameLog(path: string, moduleValue: LogModule, roleIconUrl: string -> Option<string>)
    : (r: Option<GameLog>)
    ensures r.Some? <==> Loadable(ResolveRawLog(moduleValue))
    ensures ResolveRawLog(moduleValue).roles.NullRoles? ==> r.None?
    ensures r.Some? ==> r.value.id == GetLogFileNameFromPath(path)
    ensures r.Some? ==> r.value.date == ParseDateFromFilename(r.value.id)
  {
    var rawLog := ResolveRawLog(moduleValue);
    if !Loadable(rawLog) then None
    else Some(LogFromRoles(path, rawLog, RolesOrEmpty(rawLog.roles), roleIconUrl))
  }

  /** JavaScript `map` with a callback that may throw (`None`): all results, or `None` if any call throws. */
  function MapOrFail<A, B>(s: seq<A>, f: A -> Option<B>): (r: Option<seq<B>>)
    ensures r.Some? <==> forall i | 0 <= i < |s| :: f(s[i]).Some?
    ensures r.Some? ==> |r.value| == |s|
    ensures r.Some? ==> forall i | 0 <= i < |s| :: Some(r.value[i]) == f(s[i])
  {
    if s == [] then Some([])
    else
      var first := f(s[0]);
      var rest := MapOrFail(s[1..], f);
      assert forall i | 1 <= i < |s| :: s[i] == s[1..][i - 1];
      if first.None? || rest.None? then None
      else Some([first.value] + rest.value)
  }

  /** Mapping one more element appends its result. */
  lemma MapOrFailAppend<A, B>(s: seq<A>, f: A -> Option<B>, k: int)
    requires 0 <= k < |s| && MapOrFail(s[..k], f).Some? && f(s[k]).Some?
    ensures MapOrFail(s[..k + 1], f) == Some(MapOrFail(s[..k], f).value + [f(s[k]).value])
  {
    var before := MapOrFail(s[..k], f).value;
    var prefix := s[..k + 1];
    assert forall i | 0 <= i < k :: prefix[i] == s[..k][i];
    var after := MapOrFail(prefix, f);
    assert after.Some?;
    assert forall i | 0 <= i < k :: after.value[i] == before[i];
    assert after.value == before + [f(s[k]).value];
  }

  /** The callback of the `map`, as a function of a glob entry. */
  function GameLogOf(roleIconUrl: string -> Option<string>): ((string, LogModule)) -> Option<GameLog> {
    (entry: (string, LogModule)) => BuildGameLog(entry.0, entry.1, roleIconUrl)
  }

  /** The logs of all entries, in order, or `None` as soon as one of them throws. */
  function BuildGameLogs(entries: seq<(string, LogModule)>, roleIconUrl: string -> Option<string>)
    : (r: Option<seq<GameLog>>)
    ensures r.Some? <==> forall i | 0 <= i < |entries| :: Loadable(ResolveRawLog(entries[i].1))
    ensures (exists i | 0 <= i < |entries| :: ResolveRawLog(entries[i].1).roles.NullRoles?) ==> r.None?
    ensures r.Some? ==> |r.value| == |entries|
    ensures r.Some? ==> forall i | 0 <= i < |entries| :: Some(r.value[i]) == BuildGameLog(entries[i].0, entries[i].1, roleIconUrl)
  {
    MapOrFail(entries, GameLogOf(roleIconUrl))
  }

  /** Loading one more entry appends its log. */
  lemma BuildGameLogsAppend(entries: seq<(string, LogModule)>, roleIconUrl: string -> Option<string>, k: int)
    requires 0 <= k < |entries| && BuildGameLogs(entries[..k], roleIconUrl).Some?
    requires BuildGameLog(entries[k].0, entries[k].1, roleIconUrl).Some?
    ensures BuildGameLogs(entries[..k + 1], roleIconUrl)
         == Some(BuildGameLogs(entries[..k], roleIconUrl).value + [BuildGameLog(entries[k].0, entries[k].1, roleIconUrl).value])
  {
    MapOrFailAppend(entries, GameLogOf(roleIconUrl), k);
  }

  /** `fetchGameLogs`: the `map` inside `try`, and `[]` from the `catch`. */
  function FetchGameLogs(entries: seq<(string, LogModule)>, roleIconUrl: string -> Option<string>): seq<GameLog> {
    BuildGameLogs(entries, roleIconUrl).GetOr([])
  }

  /** When every file can be read there is one log per entry, in the glob's order. */
  lemma OneLogPerEntry(entries: seq<(string, LogModule)>, roleIconUrl: string -> Option<string>, i: int)
    requires forall k | 0 <= k < |entries| :: Loadable(ResolveRawLog(entries[k].1))
    requires 0 <= i < |entries|
    ensures |FetchGameLogs(entries, roleIconUrl)| == |entries|
    ensures Some(FetchGameLogs(entries, roleIconUrl)[i]) == BuildGameLog(entries[i].0, entries[i].1, roleIconUrl)
    ensures FetchGameLogs(entries, roleIconUrl)[i].id == GetLogFileNameFromPath(entries[i].0)
  {
  }

  /** A file that throws empties the whole result. */
  lemma ErrorGivesNoLogs(entries: seq<(string, LogModule)>, roleIconUrl: string -> Option<string>, i: int)
    requires 0 <= i < |entries| && !Loadable(ResolveRawLog(entries[i].1))
    ensures FetchGameLogs(entries, roleIconUrl) == []
  {
  }

  /** A file whose `roles` is `null` makes `buildRoleMetadata` throw, so no log at all is returned. */
  lemma NullRolesGiveNoLogs(entries: seq<(string, LogModule)>, roleIconUrl: string -> Option<string>, i: int)
    requires 0 <= i < |entries| && ResolveRawLog(entries[i].1).roles.NullRoles?
    ensures FetchGameLogs(entries, roleIconUrl) == []
  {
    ErrorGivesNoLogs(entries, roleIconUrl, i);
  }

  /** A log file named `YYYYMMDD...` in any directory has that name as id and that date. */
  lemma DatedLog(dir: string, date: string, rest: string, moduleValue: LogModule, roleIconUrl: string -> Option<string>)
    requires IsIsoDate(date) && '/' !in rest && Loadable(ResolveRawLog(moduleValue))
    ensures BuildGameLog(dir + "/" + (CompactDate(date) + rest), moduleValue, roleIconUrl).value.id == CompactDate(date) + rest
    ensures BuildGameLog(dir + "/" + (CompactDate(date) + rest), moduleValue, roleIconUrl).value.date == date
  {
    assert forall i | 0 <= i < |CompactDate(date)| :: CompactDate(date)[i] != '/' by {
      assert forall i | 0 <= i < 10 && i != 4 && i != 7 :: IsAsciiDigit(date[i]);
      assert forall i | 0 <= i < |CompactDate(date)| :: CompactDate(date)[i] in date[..4] + date[5..7] + date[8..];
    }
    assert '/' !in CompactDate(date) + rest;
    FileNameOfPath(dir, CompactDate(date) + rest);
    DateRoundTrip(date, rest);
  }

  /** The saved fields are kept; the players are the saved ones, in order, with their role's name and icon added. */
  lemma RawFieldsKept(path: string, moduleValue: LogModule, roleIconUrl: string -> Option<string>)
    requires Loadable(ResolveRawLog(moduleValue))
    ensures var log := BuildGameLog(path, moduleValue, roleIconUrl).value;
      var raw := ResolveRawLog(moduleValue);
      log.edition == raw.edition && log.bluffs == raw.bluffs && log.roles == raw.roles && log.npcs == raw.npcs &&
      |log.players| == |raw.players.value| &&
      forall i | 0 <= i < |log.players| ::
        log.players[i].(roleName := None, roleImage := None) == raw.players.value[i].(roleName := None, roleImage := None)
  {
    var raw := ResolveRawLog(moduleValue);
    var log := BuildGameLog(path, moduleValue, roleIconUrl).value;
    var metadata := RoleMetadataOf(RolesOrEmpty(raw.roles), roleIconUrl, UncheckedTeam);
    assert log.players == EnrichPlayersWithRoleMetadata(raw.players.value, metadata);
    forall i | 0 <= i < |log.players|
      ensures log.players[i].(roleName := None, roleImage := None) == raw.players.value[i].(roleName := None, roleImage := None)
    {
      assert log.players[i] == EnrichPlayer(raw.players.value[i], metadata);
    }
  }

  /** The role with index `i` has the id `roleId` and the team string `demon`. */
  predicate DemonDefinition(roles: seq<Json>, roleId: string, i: int)
    requires ReadableRoles(roles)
  {
    0 <= i < |roles| && ReadRoleField(roles[i], "id", "0") == Some(roleId) && roleId != "" &&
    ReadRoleField(roles[i], "team", "12") == Some("demon")
  }

  /** With the unchecked cast, the demon set is exactly the ids of the roles whose team string is `demon`. */
  lemma DemonSetIsDemonTeam(roles: seq<Json>, roleIconUrl: string -> Option<string>, roleId: string)
    requires ReadableRoles(roles)
    ensures roleId in DemonRoleIdsOf(roles, roleIconUrl, UncheckedTeam) <==> exists i :: DemonDefinition(roles, roleId, i)
    ensures roleId in DemonRoleIdsOf(roles, roleIconUrl, UncheckedTeam) <==> roleId in DemonRoleIdsOf(roles, roleIconUrl, ParseRoleTeam)
  {
    DemonRoleIdsMembers(roles, roleIconUrl, UncheckedTeam, roleId);
    DemonSetIndependentOfTeamCheck(roles, roleIconUrl);
    if exists i :: DemonDefinition(roles, roleId, i) {
      var i :| DemonDefinition(roles, roleId, i);
      assert DemonRole(roles, roleIconUrl, UncheckedTeam, roleId, i);
    }
    if exists i :: DemonRole(roles, roleIconUrl, UncheckedTeam, roleId, i) {
      var i :| DemonRole(roles, roleIconUrl, UncheckedTeam, roleId, i);
      assert DemonDefinition(roles, roleId, i);
    }
  }

  /** The player with index `p` is alive and plays a role defined with the team `demon`. */
  ghost predicate AliveDemonPlayer(players: seq<Player>, roles: seq<Json>, p: int)
    requires ReadableRoles(roles)
  {
    0 <= p < |players| && !players[p].isDead && exists i :: DemonDefinition(roles, players[p].role, i)
  }

  /** The winner rule: `good` in the file name, then `evil`, then evil exactly when a demon is alive. */
  lemma WinnerRule(path: string, moduleValue: LogModule, roleIconUrl: string -> Option<string>)
    requires Loadable(ResolveRawLog(moduleValue))
    ensures var log := BuildGameLog(path, moduleValue, roleIconUrl).value;
      var raw := ResolveRawLog(moduleValue);
      (Contains(log.id, "good") ==> log.winner == Good) &&
      (!Contains(log.id, "good") && Contains(log.id, "evil") ==> log.winner == Evil) &&
      (!Contains(log.id, "good") && !Contains(log.id, "evil") ==>
         (log.winner == Evil <==> exists p :: AliveDemonPlayer(raw.players.value, RolesOrEmpty(raw.roles), p)))
  {
    var raw := ResolveRawLog(moduleValue);
    var roles := RolesOrEmpty(raw.roles);
    var players := raw.players.value;
    var log := BuildGameLog(path, moduleValue, roleIconUrl).value;
    var metadata := RoleMetadataOf(roles, roleIconUrl, UncheckedTeam);
    var demons := DemonRoleIdsOf(roles, roleIconUrl, UncheckedTeam);
    WinnerIgnoresEnrichment(log.id, players, metadata, demons);
    assert log.winner == ResolveWinner(log.id, players, demons);
    forall p | 0 <= p < |players|
      ensures AliveDemon(players[p], demons) <==> AliveDemonPlayer(players, roles, p)
    {
      DemonSetIsDemonTeam(roles, roleIconUrl, players[p].role);
    }
    if exists p :: AliveDemonPlayer(players, roles, p) {
      var p :| AliveDemonPlayer(players, roles, p);
      assert AliveDemon(players[p], demons);
    }
  }
}
