/**
 * The older `fetchGameLogs` of the tracker components: the same loading written as one loop over
 * the log modules that pushes a log per module, with the role map, the demon set and the winner
 * computed inline. Role icons come from the bundled icon files, looked up by the role id without
 * its Korean-script prefix.
 *
 * The glob of log files is the parameter `entries`; the glob of icon files is the parameter
 * `localIcons`, from file path to URL.
 */
module LegacyTrackerApi {
  import opened Wrappers
  import opened Json
  import opened TrackerTypes
  import opened LogParser
  import opened RoleId
  import TrackerApi

  const IconDirectory: string := "../../assets/icons/"

  /** The key of a role's icon in the icon glob. */
  function IconKey(roleId: string): string {
    IconDirectory + "Icon_" + NormalizeRoleId(roleId) + ".png"
  }

  /** `localIcons[iconKey]`, as an icon lookup. */
  function LegacyIconUrl(localIcons: map<string, string>): string -> Option<string> {
    (roleId: string) => if IconKey(roleId) in localIcons then Some(localIcons[IconKey(roleId)]) else None
  }

  /** A role id with the `kokr_` prefix finds the same icon as the id without it. */
  lemma PrefixedIdSharesIcon(localIcons: map<string, string>, roleId: string)
    requires !Strings.StartsWith(roleId, KokrPrefix) && !Strings.StartsWith(roleId, LocalePrefix)
    ensures LegacyIconUrl(localIcons)(KokrPrefix + "_" + roleId) == LegacyIconUrl(localIcons)(roleId)
    ensures LegacyIconUrl(localIcons)(LocalePrefix + "_" + roleId) == LegacyIconUrl(localIcons)(roleId)
  {
    PrefixRemoved(KokrPrefix, roleId);
    PrefixRemoved(LocalePrefix, roleId);
    UnprefixedUnchanged(roleId);
  }

  /**
   * The inner loop over `rawLog.roles ?? []`: fills the role map and the demon set, and reports
   * `false` when a role definition is `null`, where reading its fields throws.
   */
  method BuildRoleMap(roles: seq<Json>, localIcons: map<string, string>)
    returns (ok: bool, roleMap: map<string, RoleMetadata>, demonRoleIds: set<string>)
    ensures ok <==> ReadableRoles(roles)
    ensures ok ==> roleMap == RoleMetadataOf(roles, LegacyIconUrl(localIcons), UncheckedTeam)
    ensures ok ==> demonRoleIds == DemonRoleIdsOf(roles, LegacyIconUrl(localIcons), UncheckedTeam)
  {
    var icons := LegacyIconUrl(localIcons);
    roleMap := map[];
    demonRoleIds := {};
    var j := 0;
    while j < |roles|
      invariant 0 <= j <= |roles|
      invariant ReadableRoles(roles[..j])
      invariant roleMap == RoleMetadataOf(roles[..j], icons, UncheckedTeam)
      invariant demonRoleIds == DemonRoleIdsOf(roles[..j], icons, UncheckedTeam)
    {
      var role := roles[j];
      if role.JNull? {
        return false, roleMap, demonRoleIds;
      }
      ReadableExtends(roles, j);
      RoleStep(roles, icons, UncheckedTeam, j);
      var id := ReadRoleField(role, "id", "0");
      if id.None? || id.value == "" {
        j := j + 1;
        continue;
      }
      var name := ReadRoleField(role, "name", "1").GetOr(id.value);
      var team := ReadRoleField(role, "team", "12");
      var iconKey := IconKey(id.value);
      var localImage := if iconKey in localIcons then localIcons[iconKey] else "";
      assert icons(id.value).GetOr("") == localImage;
      roleMap := roleMap[id.value := RoleMetadata(name, localImage, team)];
      if team == Some("demon") {
        demonRoleIds := demonRoleIds + {id.value};
      }
      j := j + 1;
    }
    assert roles[..j] == roles;
    ok := true;
  }

  /**
   * Loading one module does not throw: it has a players array and no role definition is `null`.
   * A `null` role list is read as empty, by `rawLog.roles ?? []`.
   */
  predicate LegacyLoadable(raw: RawGameLog) {
    raw.players.Some? && ReadableRoles(RolesOrEmpty(raw.roles))
  }

  /** The log the loop pushes for one module, or `None` where the loop body throws. */
  function LegacyGameLog(path: string, moduleValue: LogModule, icons: string -> Option<string>): (r: Option<GameLog>)
    ensures r.Some? <==> LegacyLoadable(ResolveRawLog(moduleValue))
  {
    var rawLog := ResolveRawLog(moduleValue);
    if !LegacyLoadable(rawLog) then None
    else Some(TrackerApi.LogFromRoles(path, rawLog, RolesOrEmpty(rawLog.roles), icons))
  }

  /**
   * Where the saved `roles` is not `null` the loop body builds the same log as the newer loader.
   * A `null` list is loaded like a missing one, except that the log keeps its `null`; the newer
   * loader throws on it instead.
   */
  lemma LegacyGameLogAgrees(path: string, moduleValue: LogModule, icons: string -> Option<string>)
    ensures var raw := ResolveRawLog(moduleValue);
      !raw.roles.NullRoles? ==> LegacyGameLog(path, moduleValue, icons) == TrackerApi.BuildGameLog(path, moduleValue, icons)
    ensures var raw := ResolveRawLog(moduleValue);
      var asMissing := TrackerApi.BuildGameLog(path, PlainLog(raw.(roles := NoRoles)), icons);
      raw.roles.NullRoles? ==>
        TrackerApi.BuildGameLog(path, moduleValue, icons).None? &&
        LegacyGameLog(path, moduleValue, icons).Some? == asMissing.Some? &&
        (asMissing.Some? ==> LegacyGameLog(path, moduleValue, icons).value == asMissing.value.(roles := NullRoles))
  {
  }

  /** The body of the loop for one module: the loaded log, or `None` where the source throws. */
  method LoadLog(path: string, moduleValue: LogModule, localIcons: map<string, string>) returns (log: Option<GameLog>)
    ensures log == LegacyGameLog(path, moduleValue, LegacyIconUrl(localIcons))
  {
    var rawLog := ResolveRawLog(moduleValue);
    var filename := GetLogFileNameFromPath(path);
    var date := ParseDateFromFilename(filename);
    var ok, roleMap, demonRoleIds := BuildRoleMap(RolesOrEmpty(rawLog.roles), localIcons);
    if !ok || rawLog.players.None? {
      return None;
    }
    var enhancedPlayers := EnrichPlayersWithRoleMetadata(rawLog.players.value, roleMap);
    var winner: Alignment;
    if Strings.Contains(filename, "good") {
      winner := Good;
    } else if Strings.Contains(filename, "evil") {
      winner := Evil;
    } else {
      var aliveDemon := FindAliveDemon(enhancedPlayers, demonRoleIds);
      winner := if aliveDemon.Some? then Evil else Good;
    }
    log := Some(GameLog(rawLog.edition, enhancedPlayers, rawLog.bluffs, rawLog.roles, rawLog.npcs, date, winner, filename));
  }

  /** The callback of the loop, as a function of a glob entry. */
  function LegacyLogOf(icons: string -> Option<string>): ((string, LogModule)) -> Option<GameLog> {
    (entry: (string, LogModule)) => LegacyGameLog(entry.0, entry.1, icons)
  }

  /** What the loop returns: one log per module in order, or `[]` from the `catch`. */
  function LegacyFetchSpec(entries: seq<(string, LogModule)>, icons: string -> Option<string>): seq<GameLog> {
    TrackerApi.MapOrFail(entries, LegacyLogOf(icons)).GetOr([])
  }

  /** `fetchGameLogs`: one log pushed per module, and `[]` when anything throws. */
  method FetchGameLogs(entries: seq<(string, LogModule)>, localIcons: map<string, string>)
    returns (logs: seq<GameLog>)
    ensures logs == LegacyFetchSpec(entries, LegacyIconUrl(localIcons))
  {
    var icons := LegacyIconUrl(localIcons);
    logs := [];
    var k := 0;
    while k < |entries|
      invariant 0 <= k <= |entries|
      invariant TrackerApi.MapOrFail(entries[..k], LegacyLogOf(icons)) == Some(logs)
    {
      var (path, moduleValue) := entries[k];
      var log := LoadLog(path, moduleValue, localIcons);
      if log.None? {
        assert LegacyLogOf(icons)(entries[k]).None?;
        return [];
      }
      TrackerApi.MapOrFailAppend(entries, LegacyLogOf(icons), k);
      logs := logs + [log.value];
      k := k + 1;
    }
    assert entries[..k] == entries;
  }

  /** Two callbacks that agree on every element give the same `map`. */
  lemma {:induction false} MapOrFailAgrees<A, B>(s: seq<A>, f: A -> Option<B>, g: A -> Option<B>)
    requires forall i | 0 <= i < |s| :: f(s[i]) == g(s[i])
    ensures TrackerApi.MapOrFail(s, f) == TrackerApi.MapOrFail(s, g)
  {
    if s != [] {
      assert forall i | 0 <= i < |s[1..]| :: s[1..][i] == s[i + 1];
      MapOrFailAgrees(s[1..], f, g);
    }
  }

  /** Without `null` role lists the two loaders return the same logs. */
  lemma LoadersAgree(entries: seq<(string, LogModule)>, icons: string -> Option<string>)
    requires forall i | 0 <= i < |entries| :: !ResolveRawLog(entries[i].1).roles.NullRoles?
    ensures LegacyFetchSpec(entries, icons) == TrackerApi.FetchGameLogs(entries, icons)
  {
    forall i | 0 <= i < |entries|
      ensures LegacyLogOf(icons)(entries[i]) == TrackerApi.GameLogOf(icons)(entries[i])
    {
      LegacyGameLogAgrees(entries[i].0, entries[i].1, icons);
    }
    MapOrFailAgrees(entries, LegacyLogOf(icons), TrackerApi.GameLogOf(icons));
  }

  /**
   * A `null` role list empties the newer loader's result, while the older loop loads every
   * module when each has a players array and no `null` role.
   */
  lemma NullRolesSplitLoaders(entries: seq<(string, LogModule)>, icons: string -> Option<string>, i: int)
    requires 0 <= i < |entries| && ResolveRawLog(entries[i].1).roles.NullRoles?
    requires forall k | 0 <= k < |entries| :: LegacyLoadable(ResolveRawLog(entries[k].1))
    ensures TrackerApi.FetchGameLogs(entries, icons) == []
    ensures |LegacyFetchSpec(entries, icons)| == |entries| > 0
  {
    TrackerApi.NullRolesGiveNoLogs(entries, icons, i);
  }
}
