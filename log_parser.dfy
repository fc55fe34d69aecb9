/**
 * Reading a saved game log: the role fields (with the grimoire's older numeric keys as a
 * fallback), the team, the file name and the date it starts with, the metadata of every role of
 * the script and the set of demon roles, the players' role names and icons, and the winner.
 *
 * The icon lookup `getRoleIconUrl` is the parameter `roleIconUrl`. The team reader is a
 * parameter of the role metadata: `ParseRoleTeam` here, the unchecked cast in `TrackerApi`.
 */
module LogParser {
  import opened Wrappers
  import opened Json
  import opened Strings
  import opened TrackerTypes

  /** `readRoleField`: `role[key] ?? role[legacyKey]`, kept only when it is a string. */
  function ReadRoleField(role: Json, key: string, legacyKey: string): (r: Option<string>)
    requires !role.JNull?
    ensures role.GetString(key).Some? ==> r == role.GetString(key)
    ensures (role.Get(key).None? || role.Get(key) == Some(JNull)) ==> r == role.GetString(legacyKey)
    ensures role.Get(key).Some? && !role.Get(key).value.JNull? && !role.Get(key).value.JStr? ==> r.None?
  {
    var value := if role.Get(key).Some? && !role.Get(key).value.JNull? then role.Get(key) else role.Get(legacyKey);
    match value
    case Some(JStr(s)) => Some(s)
    case _ => None
  }

  /** `TRACKER_TEAM_SET`. */
  predicate IsTrackerTeam(s: string) {
    s == "townsfolk" || s == "outsider" || s == "minion" || s == "demon" || s == "traveler"
  }

  /** `parseRoleTeam`. */
  function ParseRoleTeam(value: Option<string>): (r: Option<string>)
    ensures r.Some? <==> value.Some? && IsTrackerTeam(value.value)
    ensures r.Some? ==> r == value
  {
    if value.None? || value.value == "" || !IsTrackerTeam(value.value) then None else value
  }

  /** The unchecked cast `as Team | undefined`: the team string as it is. */
  function UncheckedTeam(value: Option<string>): Option<string> {
    value
  }

  /** `getLogFileNameFromPath`: the text after the last `/`. */
  function GetLogFileNameFromPath(path: string): (r: string)
    ensures '/' !in r
    ensures EndsWith(path, r)
    ensures |r| == |path| || path[|path| - |r| - 1] == '/'
  {
    if path == [] then []
    else if path[|path| - 1] == '/' then []
    else
      var r := GetLogFileNameFromPath(path[..|path| - 1]) + [path[|path| - 1]];
      assert path[|path| - |r|..] == path[..|path| - 1][|path| - |r|..] + [path[|path| - 1]];
      r
  }

  /** A file name in a directory is found again. */
  lemma {:induction false} FileNameOfPath(dir: string, name: string)
    requires '/' !in name
    ensures GetLogFileNameFromPath(dir + "/" + name) == name
    decreases |name|
  {
    if name == [] {
      assert dir + "/" + name == dir + "/";
    } else {
      var path := dir + "/" + name;
      assert path[..|path| - 1] == dir + "/" + name[..|name| - 1];
      assert forall i | 0 <= i < |name| - 1 :: name[..|name| - 1][i] == name[i];
      FileNameOfPath(dir, name[..|name| - 1]);
      assert name == name[..|name| - 1] + [name[|name| - 1]];
    }
  }

  /** `/^(\d{4})(\d{2})(\d{2})/` matches: the name starts with eight ASCII digits. */
  predicate HasDatePrefix(fileName: string) {
    |fileName| >= 8 && forall i | 0 <= i < 8 :: IsAsciiDigit(fileName[i])
  }

  /** A `YYYY-MM-DD` date with ASCII digits. */
  predicate IsIsoDate(date: string) {
    |date| == 10 && date[4] == '-' && date[7] == '-' &&
    forall i | 0 <= i < 10 && i != 4 && i != 7 :: IsAsciiDigit(date[i])
  }

  /** The digits of a `YYYY-MM-DD` date, without the dashes. */
  function CompactDate(date: string): string
    requires |date| == 10
  {
    date[..4] + date[5..7] + date[8..]
  }

  /** `parseDateFromFilename`. */
  function ParseDateFromFilename(fileName: string): (r: string)
    ensures HasDatePrefix(fileName) ==> IsIsoDate(r) && CompactDate(r) == fileName[..8]
    ensures !HasDatePrefix(fileName) ==> r == "Unknown"
  {
    if HasDatePrefix(fileName) then
      var r := fileName[..4] + "-" + fileName[4..6] + "-" + fileName[6..8];
      assert forall i | 0 <= i < 4 :: r[i] == fileName[i];
      assert forall i | 5 <= i < 7 :: r[i] == fileName[i - 1];
      assert forall i | 8 <= i < 10 :: r[i] == fileName[i - 2];
      assert CompactDate(r) == fileName[..8];
      r
    else "Unknown"
  }

  /** A file name made of a date's digits and anything else gives that date back. */
  lemma DateRoundTrip(date: string, rest: string)
    requires IsIsoDate(date)
    ensures ParseDateFromFilename(CompactDate(date) + rest) == date
  {
    var fileName := CompactDate(date) + rest;
    assert forall i | 0 <= i < 4 :: fileName[i] == date[i];
    assert forall i | 4 <= i < 6 :: fileName[i] == date[i + 1];
    assert forall i | 6 <= i < 8 :: fileName[i] == date[i + 2];
    var r := ParseDateFromFilename(fileName);
    assert forall i | 0 <= i < 10 :: r[i] == date[i];
  }

  /** `Unknown` is not a date, so a parsed date and the fallback are never confused. */
  lemma UnknownIsNotADate()
    ensures !IsIsoDate("Unknown")
  {
  }

  /** What one iteration of the loop of `buildRoleMetadata` records: the role's id and metadata, or nothing. */
  function RoleEntry(role: Json, roleIconUrl: string -> Option<string>, teamOf: Option<string> -> Option<string>)
    : (r: Option<(string, RoleMetadata)>)
    requires !role.JNull?
    ensures r.Some? <==> ReadRoleField(role, "id", "0").Some? && ReadRoleField(role, "id", "0").value != ""
    ensures r.Some? ==> r.value.0 == ReadRoleField(role, "id", "0").value
    ensures r.Some? && ReadRoleField(role, "name", "1").None? ==> r.value.1.name == r.value.0
    ensures r.Some? ==> r.value.1.team == teamOf(ReadRoleField(role, "team", "12"))
  {
    var roleId := ReadRoleField(role, "id", "0");
    if roleId.None? || roleId.value == "" then None
    else
      var roleName := ReadRoleField(role, "name", "1").GetOr(roleId.value);
      var roleTeam := teamOf(ReadRoleField(role, "team", "12"));
      var iconUrl := roleIconUrl(roleId.value).GetOr("");
      Some((roleId.value, RoleMetadata(roleName, iconUrl, roleTeam)))
  }

  /** Role definitions that can be read: reading a field of `null` throws. */
  predicate ReadableRoles(roles: seq<Json>) {
    forall i | 0 <= i < |roles| :: !roles[i].JNull?
  }

  /** The role map after the loop has seen `roles`: a later role with the same id replaces an earlier one. */
  function RoleMetadataOf(roles: seq<Json>, roleIconUrl: string -> Option<string>, teamOf: Option<string> -> Option<string>)
    : map<string, RoleMetadata>
    requires ReadableRoles(roles)
  {
    if roles == [] then map[]
    else
      var before := RoleMetadataOf(roles[..|roles| - 1], roleIconUrl, teamOf);
      match RoleEntry(roles[|roles| - 1], roleIconUrl, teamOf)
      case None => before
      case Some((roleId, metadata)) => before[roleId := metadata]
  }

  /** The demon set after the loop has seen `roles`: ids are only ever added. */
  function DemonRoleIdsOf(roles: seq<Json>, roleIconUrl: string -> Option<string>, teamOf: Option<string> -> Option<string>)
    : set<string>
    requires ReadableRoles(roles)
  {
    if roles == [] then {}
    else
      var before := DemonRoleIdsOf(roles[..|roles| - 1], roleIconUrl, teamOf);
      match RoleEntry(roles[|roles| - 1], roleIconUrl, teamOf)
      case None => before
      case Some((roleId, metadata)) => if metadata.team == Some("demon") then before + {roleId} else before
  }

  /** A readable prefix followed by a readable role is readable. */
  lemma ReadableExtends(roles: seq<Json>, j: int)
    requires 0 <= j < |roles| && ReadableRoles(roles[..j]) && !roles[j].JNull?
    ensures ReadableRoles(roles[..j + 1])
  {
    var prefix := roles[..j + 1];
    forall k | 0 <= k <= j ensures !prefix[k].JNull? {
      if k < j {
        assert prefix[k] == roles[..j][k];
      }
    }
  }

  /** One more role: its entry, if it has one, is added to the role map and, for a demon, to the demon set. */
  lemma RoleStep(roles: seq<Json>, roleIconUrl: string -> Option<string>, teamOf: Option<string> -> Option<string>, j: int)
    requires 0 <= j < |roles| && ReadableRoles(roles[..j + 1])
    ensures ReadableRoles(roles[..j])
    ensures RoleEntry(roles[j], roleIconUrl, teamOf).None? ==>
      RoleMetadataOf(roles[..j + 1], roleIconUrl, teamOf) == RoleMetadataOf(roles[..j], roleIconUrl, teamOf) &&
      DemonRoleIdsOf(roles[..j + 1], roleIconUrl, teamOf) == DemonRoleIdsOf(roles[..j], roleIconUrl, teamOf)
    ensures RoleEntry(roles[j], roleIconUrl, teamOf).Some? ==>
      var (roleId, metadata) := RoleEntry(roles[j], roleIconUrl, teamOf).value;
      RoleMetadataOf(roles[..j + 1], roleIconUrl, teamOf) == RoleMetadataOf(roles[..j], roleIconUrl, teamOf)[roleId := metadata] &&
      DemonRoleIdsOf(roles[..j + 1], roleIconUrl, teamOf)
        == DemonRoleIdsOf(roles[..j], roleIconUrl, teamOf) + (if metadata.team == Some("demon") then {roleId} else {})
  {
    var prefix := roles[..j + 1];
    assert prefix[..j] == roles[..j] && prefix[j] == roles[j];
    forall k | 0 <= k < j ensures !roles[..j][k].JNull? {
      assert roles[..j][k] == prefix[k];
    }
  }

  /** `buildRoleMetadata`: one loop fills the role map and the demon set. */
  method BuildRoleMetadata(roles: seq<Json>, roleIconUrl: string -> Option<string>, teamOf: Option<string> -> Option<string>)
    returns (roleMetadataById: map<string, RoleMetadata>, demonRoleIds: set<string>)
    requires ReadableRoles(roles)
    ensures roleMetadataById == RoleMetadataOf(roles, roleIconUrl, teamOf)
    ensures demonRoleIds == DemonRoleIdsOf(roles, roleIconUrl, teamOf)
  {
    roleMetadataById := map[];
    demonRoleIds := {};
    var i := 0;
    while i < |roles|
      invariant 0 <= i <= |roles|
      invariant roleMetadataById == RoleMetadataOf(roles[..i], roleIconUrl, teamOf)
      invariant demonRoleIds == DemonRoleIdsOf(roles[..i], roleIconUrl, teamOf)
    {
      var role := roles[i];
      assert roles[..i + 1] == roles[..i] + [role];
      RoleStep(roles, roleIconUrl, teamOf, i);
      var roleId := ReadRoleField(role, "id", "0");
      if roleId.None? || roleId.value == "" {
        i := i + 1;
        continue;
      }
      var roleName := ReadRoleField(role, "name", "1").GetOr(roleId.value);
      var roleTeam := teamOf(ReadRoleField(role, "team", "12"));
      var iconUrl := roleIconUrl(roleId.value).GetOr("");
      roleMetadataById := roleMetadataById[roleId.value := RoleMetadata(roleName, iconUrl, roleTeam)];
      if roleTeam == Some("demon") {
        demonRoleIds := demonRoleIds + {roleId.value};
      }
      i := i + 1;
    }
    assert roles[..i] == roles;
  }

  /** The role with index `i` is recorded under `roleId` and no later role has that id. */
  predicate LastWithId(roles: seq<Json>, roleIconUrl: string -> Option<string>, teamOf: Option<string> -> Option<string>,
                       roleId: string, i: int)
    requires ReadableRoles(roles)
  {
    0 <= i < |roles| && RoleEntry(roles[i], roleIconUrl, teamOf).Some? &&
    RoleEntry(roles[i], roleIconUrl, teamOf).value.0 == roleId &&
    forall j | i < j < |roles| :: RoleEntry(roles[j], roleIconUrl, teamOf).None? || RoleEntry(roles[j], roleIconUrl, teamOf).value.0 != roleId
  }

  /** Every key of the role map is the id of a role, and holds the metadata of the last role with that id. */
  lemma {:induction false} RoleMetadataFromLastRole(roles: seq<Json>, roleIconUrl: string -> Option<string>,
                                                    teamOf: Option<string> -> Option<string>, roleId: string)
    requires ReadableRoles(roles)
    requires roleId in RoleMetadataOf(roles, roleIconUrl, teamOf)
    ensures exists i :: (LastWithId(roles, roleIconUrl, teamOf, roleId, i) &&
      RoleEntry(roles[i], roleIconUrl, teamOf).value.1 == RoleMetadataOf(roles, roleIconUrl, teamOf)[roleId])
  {
    var prefix := roles[..|roles| - 1];
    var last := RoleEntry(roles[|roles| - 1], roleIconUrl, teamOf);
    if last.Some? && last.value.0 == roleId {
      assert LastWithId(roles, roleIconUrl, teamOf, roleId, |roles| - 1);
    } else {
      assert ReadableRoles(prefix) by {
        forall k | 0 <= k < |prefix| ensures !prefix[k].JNull? {
          assert prefix[k] == roles[k];
        }
      }
      RoleMetadataFromLastRole(prefix, roleIconUrl, teamOf, roleId);
      var i :| LastWithId(prefix, roleIconUrl, teamOf, roleId, i) &&
        RoleEntry(prefix[i], roleIconUrl, teamOf).value.1 == RoleMetadataOf(prefix, roleIconUrl, teamOf)[roleId];
      assert prefix[i] == roles[i];
      forall j | i < j < |roles|
        ensures RoleEntry(roles[j], roleIconUrl, teamOf).None? || RoleEntry(roles[j], roleIconUrl, teamOf).value.0 != roleId
      {
        if j < |roles| - 1 {
          assert prefix[j] == roles[j];
        }
      }
      assert LastWithId(roles, roleIconUrl, teamOf, roleId, i);
    }
  }

  /** Every role with an id is in the role map. */
  lemma {:induction false} RoleWithIdRecorded(roles: seq<Json>, roleIconUrl: string -> Option<string>,
                                              teamOf: Option<string> -> Option<string>, i: int)
    requires ReadableRoles(roles) && 0 <= i < |roles| && RoleEntry(roles[i], roleIconUrl, teamOf).Some?
    ensures RoleEntry(roles[i], roleIconUrl, teamOf).value.0 in RoleMetadataOf(roles, roleIconUrl, teamOf)
    decreases |roles|
  {
    var prefix := roles[..|roles| - 1];
    if i < |roles| - 1 {
      assert ReadableRoles(prefix) by {
        forall k | 0 <= k < |prefix| ensures !prefix[k].JNull? {
          assert prefix[k] == roles[k];
        }
      }
      assert prefix[i] == roles[i];
      RoleWithIdRecorded(prefix, roleIconUrl, teamOf, i);
    }
  }

  /** The role with index `i` has the id `roleId` and the team `demon`. */
  predicate DemonRole(roles: seq<Json>, roleIconUrl: string -> Option<string>, teamOf: Option<string> -> Option<string>,
                      roleId: string, i: int)
    requires ReadableRoles(roles)
  {
    0 <= i < |roles| && RoleEntry(roles[i], roleIconUrl, teamOf).Some? &&
    RoleEntry(roles[i], roleIconUrl, teamOf).value.0 == roleId &&
    RoleEntry(roles[i], roleIconUrl, teamOf).value.1.team == Some("demon")
  }

  /** A role id is in the demon set exactly when some role with that id has the team `demon`. */
  lemma {:induction false} DemonRoleIdsMembers(roles: seq<Json>, roleIconUrl: string -> Option<string>,
                                               teamOf: Option<string> -> Option<string>, roleId: string)
    requires ReadableRoles(roles)
    ensures roleId in DemonRoleIdsOf(roles, roleIconUrl, teamOf) <==>
      exists i :: DemonRole(roles, roleIconUrl, teamOf, roleId, i)
    decreases |roles|
  {
    if roles != [] {
      var prefix := roles[..|roles| - 1];
      assert ReadableRoles(prefix) by {
        forall k | 0 <= k < |prefix| ensures !prefix[k].JNull? {
          assert prefix[k] == roles[k];
        }
      }
      DemonRoleIdsMembers(prefix, roleIconUrl, teamOf, roleId);
      var n := |roles| - 1;
      if roleId in DemonRoleIdsOf(roles, roleIconUrl, teamOf) {
        if DemonRole(roles, roleIconUrl, teamOf, roleId, n) {
        } else {
          var i :| DemonRole(prefix, roleIconUrl, teamOf, roleId, i);
          assert prefix[i] == roles[i];
          assert DemonRole(roles, roleIconUrl, teamOf, roleId, i);
        }
      }
      if exists i :: DemonRole(roles, roleIconUrl, teamOf, roleId, i) {
        var i :| DemonRole(roles, roleIconUrl, teamOf, roleId, i);
        if i < n {
          assert prefix[i] == roles[i];
          assert DemonRole(prefix, roleIconUrl, teamOf, roleId, i);
        }
      }
    }
  }

  /** Every demon id is a key of the role map. */
  lemma DemonRoleIdsAreKeys(roles: seq<Json>, roleIconUrl: string -> Option<string>, teamOf: Option<string> -> Option<string>)
    requires ReadableRoles(roles)
    ensures DemonRoleIdsOf(roles, roleIconUrl, teamOf) <= RoleMetadataOf(roles, roleIconUrl, teamOf).Keys
  {
    forall roleId | roleId in DemonRoleIdsOf(roles, roleIconUrl, teamOf)
      ensures roleId in RoleMetadataOf(roles, roleIconUrl, teamOf)
    {
      DemonRoleIdsMembers(roles, roleIconUrl, teamOf, roleId);
      var i :| DemonRole(roles, roleIconUrl, teamOf, roleId, i);
      RoleWithIdRecorded(roles, roleIconUrl, teamOf, i);
    }
  }

  /** Checking the team or casting it gives the same demon set, since `demon` is a valid team. */
  lemma {:induction false} DemonSetIndependentOfTeamCheck(roles: seq<Json>, roleIconUrl: string -> Option<string>)
    requires ReadableRoles(roles)
    ensures DemonRoleIdsOf(roles, roleIconUrl, ParseRoleTeam) == DemonRoleIdsOf(roles, roleIconUrl, UncheckedTeam)
    decreases |roles|
  {
    if roles != [] {
      var prefix := roles[..|roles| - 1];
      assert ReadableRoles(prefix) by {
        forall k | 0 <= k < |prefix| ensures !prefix[k].JNull? {
          assert prefix[k] == roles[k];
        }
      }
      DemonSetIndependentOfTeamCheck(prefix, roleIconUrl);
      var team := ReadRoleField(roles[|roles| - 1], "team", "12");
      assert ParseRoleTeam(team) == Some("demon") <==> UncheckedTeam(team) == Some("demon");
    }
  }

  /** The callback of `enrichPlayersWithRoleMetadata` for one player. */
  function EnrichPlayer(player: Player, roleMetadataById: map<string, RoleMetadata>): (r: Player)
    ensures r.(roleName := player.roleName, roleImage := player.roleImage) == player
    ensures player.role in roleMetadataById ==>
      r.roleName == Some(roleMetadataById[player.role].name) && r.roleImage == Some(roleMetadataById[player.role].image)
    ensures player.role !in roleMetadataById ==> r.roleName == Some(player.role) && r.roleImage.None?
  {
    if player.role in roleMetadataById then
      var metadata := roleMetadataById[player.role];
      player.(roleName := Some(metadata.name), roleImage := Some(metadata.image))
    else
      player.(roleName := Some(player.role), roleImage := None)
  }

  /** `enrichPlayersWithRoleMetadata`: a `map` over the players. */
  function EnrichPlayersWithRoleMetadata(players: seq<Player>, roleMetadataById: map<string, RoleMetadata>): (r: seq<Player>)
    ensures |r| == |players|
    ensures forall i | 0 <= i < |players| :: r[i] == EnrichPlayer(players[i], roleMetadataById)
  {
    if players == [] then []
    else [EnrichPlayer(players[0], roleMetadataById)] + EnrichPlayersWithRoleMetadata(players[1..], roleMetadataById)
  }

  /** Enriching again changes nothing, because only fields derived from the role are written. */
  lemma EnrichIdempotent(players: seq<Player>, roleMetadataById: map<string, RoleMetadata>)
    ensures EnrichPlayersWithRoleMetadata(EnrichPlayersWithRoleMetadata(players, roleMetadataById), roleMetadataById)
         == EnrichPlayersWithRoleMetadata(players, roleMetadataById)
  {
    var once := EnrichPlayersWithRoleMetadata(players, roleMetadataById);
    var twice := EnrichPlayersWithRoleMetadata(once, roleMetadataById);
    forall i | 0 <= i < |players| ensures twice[i] == once[i] {
      assert once[i].role == players[i].role;
    }
  }

  /** The player is alive and holds a demon role. */
  predicate AliveDemon(player: Player, demonRoleIds: set<string>) {
    player.role in demonRoleIds && !player.isDead
  }

  /** The player with index `i` is the first alive demon. */
  predicate FirstAliveDemon(players: seq<Player>, demonRoleIds: set<string>, i: int) {
    0 <= i < |players| && AliveDemon(players[i], demonRoleIds) &&
    forall k | 0 <= k < i :: !AliveDemon(players[k], demonRoleIds)
  }

  /** `players.find(player => demonRoleIds.has(player.role) && !player.isDead)`. */
  function FindAliveDemon(players: seq<Player>, demonRoleIds: set<string>): (r: Option<Player>)
    ensures r.None? <==> forall i | 0 <= i < |players| :: !AliveDemon(players[i], demonRoleIds)
    ensures r.Some? ==> exists i :: FirstAliveDemon(players, demonRoleIds, i) && players[i] == r.value
  {
    if players == [] then None
    else if AliveDemon(players[0], demonRoleIds) then
      assert FirstAliveDemon(players, demonRoleIds, 0);
      Some(players[0])
    else
      var r := FindAliveDemon(players[1..], demonRoleIds);
      assert forall i | 1 <= i < |players| :: players[i] == players[1..][i - 1];
      if r.Some? then
        var i :| FirstAliveDemon(players[1..], demonRoleIds, i) && players[1..][i] == r.value;
        assert FirstAliveDemon(players, demonRoleIds, i + 1);
        r
      else r
  }

  /** `resolveWinner`. */
  function ResolveWinner(fileName: string, players: seq<Player>, demonRoleIds: set<string>): (r: Alignment)
    ensures Contains(fileName, "good") ==> r == Good
    ensures !Contains(fileName, "good") && Contains(fileName, "evil") ==> r == Evil
    ensures !Contains(fileName, "good") && !Contains(fileName, "evil") ==>
      (r == Evil <==> exists i | 0 <= i < |players| :: AliveDemon(players[i], demonRoleIds))
  {
    if Contains(fileName, "good") then Good
    else if Contains(fileName, "evil") then Evil
    else if FindAliveDemon(players, demonRoleIds).Some? then Evil
    else Good
  }

  /** The winner does not depend on the enrichment, which keeps every player's role. */
  lemma WinnerIgnoresEnrichment(fileName: string, players: seq<Player>, roleMetadataById: map<string, RoleMetadata>,
                                demonRoleIds: set<string>)
    ensures ResolveWinner(fileName, EnrichPlayersWithRoleMetadata(players, roleMetadataById), demonRoleIds)
         == ResolveWinner(fileName, players, demonRoleIds)
  {
    var enriched := EnrichPlayersWithRoleMetadata(players, roleMetadataById);
    assert forall i | 0 <= i < |players| :: enriched[i].role == players[i].role && enriched[i].isDead == players[i].isDead;
  }
}
