/**
 * `normalizeRoleId`: the Korean-script prefix of a role id (`kokr` or `ko_KR`, then an optional
 * `_`) is removed once, at the start of the id, so that `kokr_washerwoman` and `washerwoman`
 * name the same role. `normalizeRoleIdForIcon` is the same function.
 */
module RoleId {
  import opened Strings

  const KokrPrefix: string := "kokr"
  const LocalePrefix: string := "ko_KR"

  /** `/^(kokr|ko_KR)_?/`: the length of the match at the start of the id, `0` when there is none. */
  function PrefixLength(roleId: string): (n: nat)
    ensures n <= |roleId|
  {
    var head :=
      if StartsWith(roleId, KokrPrefix) then |KokrPrefix|
      else if StartsWith(roleId, LocalePrefix) then |LocalePrefix|
      else 0;
    if head > 0 && head < |roleId| && roleId[head] == '_' then head + 1 else head
  }

  /** `normalizeRoleId`. */
  function NormalizeRoleId(roleId: string): (r: string)
    ensures EndsWith(roleId, r)
  {
    roleId[PrefixLength(roleId)..]
  }

  /** An id without either prefix is kept as it is. */
  lemma UnprefixedUnchanged(roleId: string)
    requires !StartsWith(roleId, KokrPrefix) && !StartsWith(roleId, LocalePrefix)
    ensures NormalizeRoleId(roleId) == roleId
  {
  }

  /** Either prefix, followed by `_` or not, is removed. */
  lemma {:induction false} PrefixRemoved(prefix: string, rest: string)
    requires prefix == KokrPrefix || prefix == LocalePrefix
    ensures NormalizeRoleId(prefix + "_" + rest) == rest
    ensures (rest == [] || rest[0] != '_') ==> NormalizeRoleId(prefix + rest) == rest
  {
    var withSep := prefix + "_" + rest;
    assert withSep[..|prefix|] == prefix;
    assert withSep[|prefix|] == '_';
    assert withSep[|prefix| + 1..] == rest;
    assert (prefix + rest)[..|prefix|] == prefix;
    assert (prefix + rest)[|prefix|..] == rest;
    if prefix == LocalePrefix {
      assert withSep[2] == '_' && (prefix + rest)[2] == '_';
    }
  }

  /** Only the first prefix goes: `kokr_kokr_x` becomes `kokr_x`, so normalising is not idempotent. */
  lemma OnlyFirstPrefixRemoved(rest: string)
    ensures NormalizeRoleId(KokrPrefix + "_" + (KokrPrefix + "_" + rest)) == KokrPrefix + "_" + rest
    ensures NormalizeRoleId(NormalizeRoleId(KokrPrefix + "_" + (KokrPrefix + "_" + rest))) == rest
  {
    PrefixRemoved(KokrPrefix, KokrPrefix + "_" + rest);
    PrefixRemoved(KokrPrefix, rest);
  }

  /** At most one `_` after the prefix is removed. */
  lemma OneSeparatorRemoved(prefix: string, rest: string)
    requires prefix == KokrPrefix || prefix == LocalePrefix
    ensures NormalizeRoleId(prefix + "__" + rest) == "_" + rest
  {
    PrefixRemoved(prefix, "_" + rest);
    assert prefix + "_" + ("_" + rest) == prefix + "__" + rest;
  }
}
