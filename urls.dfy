/**
 * The translation asset URLs: the configured asset base without trailing slashes, the rewriting
 * of URLs that point at one of the known remote copies of the assets onto that base, and the
 * builders of script JSON, script PDF and image URLs.
 *
 * The build-time setting `VITE_TRANSLATIONS_BASE` is the parameter `env` (`None` when unset).
 */
module Urls {
  import opened Wrappers
  import opened Strings

  const TranslationsDefaultBase: string := "/translations/assets"

  /** `.replace(/\/+$/, '')`: the trailing run of slashes is removed. */
  function TrimTrailingSlashes(s: string): (r: string)
    ensures StartsWith(s, r)
    ensures r == [] || r[|r| - 1] != '/'
    ensures forall i | |r| <= i < |s| :: s[i] == '/'
  {
    if s != [] && s[|s| - 1] == '/' then TrimTrailingSlashes(s[..|s| - 1]) else s
  }

  /** `TRANSLATIONS_RAW_BASE`: the setting, or the default when it is unset or empty. */
  function TranslationsRawBase(env: Option<string>): (r: string)
    ensures r == [] || r[|r| - 1] != '/'
  {
    TrimTrailingSlashes(if env.Some? && env.value != "" then env.value else TranslationsDefaultBase)
  }

  lemma {:induction false} UnsetBaseIsDefault()
    ensures TranslationsRawBase(None) == TranslationsDefaultBase
    ensures TranslationsRawBase(Some("")) == TranslationsDefaultBase
  {
    assert TranslationsDefaultBase[|TranslationsDefaultBase| - 1] == 's';
  }

  const GithubHost: string := "https://raw.githubusercontent.com"
  const GithubRepoBase: string := GithubHost + "/wonhyo-e/botc-translations"

  /** `REMOTE_ASSET_BASES`, in order. */
  const RemoteAssetBases: seq<string> := [
    GithubRepoBase + "/refs/heads/main/assets",
    GithubRepoBase + "/main/assets",
    "/botc-translations/assets"
  ]

  /** One step of the `reduce` in `normalizeTranslationUrl`. */
  function RebaseStep(rawBase: string, url: string, remoteBase: string): string {
    if StartsWith(url, remoteBase) then rawBase + url[|remoteBase|..] else url
  }

  /** The `reduce` over a list of remote bases, each checked against the URL as rewritten so far. */
  function RebaseAll(rawBase: string, url: string, remoteBases: seq<string>): string
    decreases |remoteBases|
  {
    if remoteBases == [] then url
    else RebaseAll(rawBase, RebaseStep(rawBase, url, remoteBases[0]), remoteBases[1..])
  }

  /** `normalizeTranslationUrl`. */
  function NormalizeTranslationUrl(env: Option<string>, url: string): string {
    RebaseAll(TranslationsRawBase(env), url, RemoteAssetBases)
  }

  /** The URL starts with none of the bases. */
  predicate StartsWithNone(url: string, remoteBases: seq<string>) {
    forall j | 0 <= j < |remoteBases| :: !StartsWith(url, remoteBases[j])
  }

  /** `a` and `b` differ at a position both have, so no string starts with both. */
  predicate Diverges(a: string, b: string) {
    exists i | 0 <= i < |a| && i < |b| :: a[i] != b[i]
  }

  /** The base differs from every remote base, so a rewritten URL is never rewritten again. */
  predicate IndependentBase(rawBase: string) {
    forall j | 0 <= j < |RemoteAssetBases| :: Diverges(rawBase, RemoteAssetBases[j])
  }

  lemma DivergentPrefixes(s: string, a: string, b: string)
    requires StartsWith(s, a) && Diverges(a, b)
    ensures !StartsWith(s, b)
  {
    var i :| 0 <= i < |a| && i < |b| && a[i] != b[i];
    assert s[i] == s[..|a|][i];
    if |b| <= |s| {
      assert s[..|b|][i] != b[i];
    }
  }

  /** A URL that starts with no base is left as it is. */
  lemma {:induction false} RebaseUnmatched(rawBase: string, url: string, remoteBases: seq<string>)
    requires StartsWithNone(url, remoteBases)
    ensures RebaseAll(rawBase, url, remoteBases) == url
    decreases |remoteBases|
  {
    if remoteBases != [] {
      RebaseUnmatched(rawBase, url, remoteBases[1..]);
    }
  }

  /** The result is the URL itself or starts with the configured base. */
  lemma {:induction false} RebaseForm(rawBase: string, url: string, remoteBases: seq<string>)
    ensures var r := RebaseAll(rawBase, url, remoteBases); r == url || StartsWith(r, rawBase)
    decreases |remoteBases|
  {
    if remoteBases != [] {
      var next := RebaseStep(rawBase, url, remoteBases[0]);
      RebaseForm(rawBase, next, remoteBases[1..]);
      if next != url {
        assert (rawBase + url[|remoteBases[0]|..])[..|rawBase|] == rawBase;
      }
    }
  }

  /** With an independent base, no remote base is left at the head of the result. */
  lemma {:induction false} RebaseLeavesNoRemote(rawBase: string, url: string, remoteBases: seq<string>)
    requires forall j | 0 <= j < |remoteBases| :: Diverges(rawBase, remoteBases[j])
    ensures StartsWithNone(RebaseAll(rawBase, url, remoteBases), remoteBases)
    decreases |remoteBases|
  {
    if remoteBases != [] {
      var next := RebaseStep(rawBase, url, remoteBases[0]);
      var r := RebaseAll(rawBase, url, remoteBases);
      RebaseLeavesNoRemote(rawBase, next, remoteBases[1..]);
      RebaseForm(rawBase, next, remoteBases[1..]);
      if StartsWith(url, remoteBases[0]) {
        assert (rawBase + url[|remoteBases[0]|..])[..|rawBase|] == rawBase;
      }
      if StartsWith(r, rawBase) {
        DivergentPrefixes(r, rawBase, remoteBases[0]);
      }
      assert forall j | 1 <= j < |remoteBases| :: remoteBases[j] == remoteBases[1..][j - 1];
    }
  }

  /** The remote bases pairwise differ, so a URL starts with at most one of them. */
  lemma RemoteBasesDiverge()
    ensures forall j, k | 0 <= j < |RemoteAssetBases| && 0 <= k < |RemoteAssetBases| && j != k ::
      Diverges(RemoteAssetBases[j], RemoteAssetBases[k])
  {
    var n := |GithubRepoBase|;
    assert GithubHost[0] == 'h';
    assert GithubRepoBase[0] == 'h';
    assert RemoteAssetBases[0][n + 1] == 'r' && RemoteAssetBases[1][n + 1] == 'm';
    assert RemoteAssetBases[0][0] == 'h' && RemoteAssetBases[1][0] == 'h' && RemoteAssetBases[2][0] == '/';
  }

  /** A URL on a remote base is moved onto the configured base, keeping the rest of the URL. */
  lemma {:induction false} RebaseMatched(rawBase: string, k: int, rest: string, remoteBases: seq<string>)
    requires 0 <= k < |remoteBases|
    requires forall j | 0 <= j < |remoteBases| :: Diverges(rawBase, remoteBases[j])
    requires forall j | 0 <= j < k :: Diverges(remoteBases[k], remoteBases[j])
    ensures RebaseAll(rawBase, remoteBases[k] + rest, remoteBases) == rawBase + rest
    decreases |remoteBases|
  {
    var url := remoteBases[k] + rest;
    assert url[..|remoteBases[k]|] == remoteBases[k];
    if k == 0 {
      assert url[|remoteBases[0]|..] == rest;
      assert (rawBase + rest)[..|rawBase|] == rawBase;
      forall j | 0 <= j < |remoteBases| - 1 ensures !StartsWith(rawBase + rest, remoteBases[1..][j]) {
        DivergentPrefixes(rawBase + rest, rawBase, remoteBases[j + 1]);
      }
      RebaseUnmatched(rawBase, rawBase + rest, remoteBases[1..]);
    } else {
      DivergentPrefixes(url, remoteBases[k], remoteBases[0]);
      assert remoteBases[k] == remoteBases[1..][k - 1];
      RebaseMatched(rawBase, k - 1, rest, remoteBases[1..]);
    }
  }

  /** `normalizeTranslationUrl` on a URL of a remote copy: the configured base, then the rest of the URL. */
  lemma RemoteUrlRebased(env: Option<string>, k: int, rest: string)
    requires 0 <= k < |RemoteAssetBases| && IndependentBase(TranslationsRawBase(env))
    ensures NormalizeTranslationUrl(env, RemoteAssetBases[k] + rest) == TranslationsRawBase(env) + rest
  {
    RemoteBasesDiverge();
    RebaseMatched(TranslationsRawBase(env), k, rest, RemoteAssetBases);
  }

  /** Any other URL is returned as it is. */
  lemma OtherUrlUnchanged(env: Option<string>, url: string)
    requires StartsWithNone(url, RemoteAssetBases)
    ensures NormalizeTranslationUrl(env, url) == url
  {
    RebaseUnmatched(TranslationsRawBase(env), url, RemoteAssetBases);
  }

  /** Normalising twice is normalising once, when the configured base is not itself a remote copy. */
  lemma NormalizeIdempotent(env: Option<string>, url: string)
    requires IndependentBase(TranslationsRawBase(env))
    ensures NormalizeTranslationUrl(env, NormalizeTranslationUrl(env, url)) == NormalizeTranslationUrl(env, url)
  {
    var rawBase := TranslationsRawBase(env);
    RebaseLeavesNoRemote(rawBase, url, RemoteAssetBases);
    RebaseUnmatched(rawBase, NormalizeTranslationUrl(env, url), RemoteAssetBases);
  }

  /** The default base is independent of the remote copies. */
  lemma DefaultBaseIndependent()
    ensures IndependentBase(TranslationsRawBase(None))
  {
    UnsetBaseIsDefault();
    var d := TranslationsDefaultBase;
    assert GithubHost[0] == 'h';
    assert GithubRepoBase[0] == 'h';
    assert d[0] == '/' && RemoteAssetBases[0][0] == 'h' && RemoteAssetBases[1][0] == 'h';
    assert d[1] == 't' && RemoteAssetBases[2][1] == 'b';
    assert Diverges(d, RemoteAssetBases[0]) && Diverges(d, RemoteAssetBases[1]) && Diverges(d, RemoteAssetBases[2]);
  }

  /** `buildScriptJsonUrl`. */
  function BuildScriptJsonUrl(env: Option<string>, scriptId: string): string {
    TranslationsRawBase(env) + "/scripts/ko_KR/" + scriptId + ".json"
  }

  /** `buildScriptPdfUrl`. */
  function BuildScriptPdfUrl(env: Option<string>, scriptId: string): string {
    TranslationsRawBase(env) + "/pdf/ko_KR/" + scriptId + ".pdf"
  }

  /** `buildScriptImageUrl`. */
  function BuildScriptImageUrl(env: Option<string>, imageName: string): string {
    TranslationsRawBase(env) + "/images/" + imageName + ".png"
  }

  /** A name between a fixed head and a fixed tail can be read back. */
  lemma {:induction false} FramedInjective(head: string, x: string, y: string, tail: string)
    requires head + x + tail == head + y + tail
    ensures x == y
  {
    var s := head + x + tail;
    assert |x| == |y|;
    assert x == s[|head|..|head| + |x|];
    assert y == (head + y + tail)[|head|..|head| + |y|];
  }

  /** Different scripts and images get different URLs. */
  lemma BuildersInjective(env: Option<string>, a: string, b: string)
    ensures BuildScriptJsonUrl(env, a) == BuildScriptJsonUrl(env, b) ==> a == b
    ensures BuildScriptPdfUrl(env, a) == BuildScriptPdfUrl(env, b) ==> a == b
    ensures BuildScriptImageUrl(env, a) == BuildScriptImageUrl(env, b) ==> a == b
  {
    var raw := TranslationsRawBase(env);
    if BuildScriptJsonUrl(env, a) == BuildScriptJsonUrl(env, b) {
      FramedInjective(raw + "/scripts/ko_KR/", a, b, ".json");
    }
    if BuildScriptPdfUrl(env, a) == BuildScriptPdfUrl(env, b) {
      FramedInjective(raw + "/pdf/ko_KR/", a, b, ".pdf");
    }
    if BuildScriptImageUrl(env, a) == BuildScriptImageUrl(env, b) {
      FramedInjective(raw + "/images/", a, b, ".png");
    }
  }

  /** A URL built on an independent base is already normalised. */
  lemma BuiltUrlsNormalized(env: Option<string>, name: string)
    requires IndependentBase(TranslationsRawBase(env))
    ensures NormalizeTranslationUrl(env, BuildScriptJsonUrl(env, name)) == BuildScriptJsonUrl(env, name)
    ensures NormalizeTranslationUrl(env, BuildScriptPdfUrl(env, name)) == BuildScriptPdfUrl(env, name)
    ensures NormalizeTranslationUrl(env, BuildScriptImageUrl(env, name)) == BuildScriptImageUrl(env, name)
  {
    var raw := TranslationsRawBase(env);
    var urls := [BuildScriptJsonUrl(env, name), BuildScriptPdfUrl(env, name), BuildScriptImageUrl(env, name)];
    assert urls[0] == raw + ("/scripts/ko_KR/" + name + ".json");
    assert urls[1] == raw + ("/pdf/ko_KR/" + name + ".pdf");
    assert urls[2] == raw + ("/images/" + name + ".png");
    forall u | 0 <= u < 3 ensures NormalizeTranslationUrl(env, urls[u]) == urls[u] {
      assert StartsWith(urls[u], raw);
      forall j | 0 <= j < |RemoteAssetBases| ensures !StartsWith(urls[u], RemoteAssetBases[j]) {
        DivergentPrefixes(urls[u], raw, RemoteAssetBases[j]);
      }
      OtherUrlUnchanged(env, urls[u]);
    }
  }
}
