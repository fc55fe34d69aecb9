/**
 * The scripts the storyteller helper offers, the lookup of a script by id, and the choice of the
 * script shown first (the one saved in local storage when it is a known id, else the first script).
 *
 * The asset base setting is the parameter `env`, as in `Urls`; whether a browser window exists
 * and what local storage holds are parameters of `GetInitialHelperScriptId`.
 */
module HelperScripts {
  import opened Wrappers
  import opened Seqs
  import Urls

  datatype HelperScript = HelperScript(id: string, name: string, url: string)

  /** The ids of `HELPER_SCRIPTS`, in order. */
  const HelperScriptIds: seq<string> := [
    "trouble_brewing", "bad_moon_rising", "sects_and_violets", "everyone_can_play",
    "uncertain_death", "no_greater_joy", "laissez_un_faire", "over_the_river",
    "pies_baking", "catfishing", "onion_pies"
  ]

  /** The names of `HELPER_SCRIPTS`, in the same order. */
  const HelperScriptNames: seq<string> := [
    "불길한 조짐", "어둠을 부르는 달", "환란의 화원", "모두를 위한 밤",
    "의문사 (Uncertain Death)", "극한의 즐거움", "자유방임불평등주의", "할머니댁으로",
    "익어가는 파이 (Pies Baking)", "Catfishing", "Onion Pies"
  ]

  const HelperSelectedScriptStorageKey: string := "helper_selected_script"

  /** `HELPER_SCRIPTS`: each script's URL is its JSON URL on the asset base. */
  function HelperScripts(env: Option<string>): (r: seq<HelperScript>)
    ensures |r| == |HelperScriptIds|
  {
    seq(|HelperScriptIds|, i requires 0 <= i < |HelperScriptIds| =>
      HelperScript(HelperScriptIds[i], HelperScriptNames[i], Urls.BuildScriptJsonUrl(env, HelperScriptIds[i])))
  }

  /** `DEFAULT_HELPER_SCRIPT`. */
  function DefaultHelperScript(env: Option<string>): HelperScript {
    HelperScripts(env)[0]
  }

  /** `new Map(scripts.map(script => [script.id, script]))`: a later script with the same id wins. */
  function ScriptsById(scripts: seq<HelperScript>): (r: map<string, HelperScript>)
    ensures forall id :: id in r <==> exists i | 0 <= i < |scripts| :: scripts[i].id == id
    ensures forall id | id in r :: r[id].id == id && r[id] in scripts
  {
    if scripts == [] then map[]
    else
      var last := scripts[|scripts| - 1];
      var r := ScriptsById(scripts[..|scripts| - 1])[last.id := last];
      assert forall i | 0 <= i < |scripts| - 1 :: scripts[..|scripts| - 1][i] == scripts[i];
      r
  }

  /** `isHelperScriptId`. */
  predicate IsHelperScriptId(env: Option<string>, scriptId: string) {
    scriptId in ScriptsById(HelperScripts(env))
  }

  /** `getHelperScriptById`: the script with that id, or the default one. */
  function GetHelperScriptById(env: Option<string>, scriptId: string): HelperScript {
    var byId := ScriptsById(HelperScripts(env));
    if scriptId in byId then byId[scriptId] else DefaultHelperScript(env)
  }

  /** `getInitialHelperScriptId`; `saved` is what local storage holds under the storage key. */
  function GetInitialHelperScriptId(env: Option<string>, windowDefined: bool, saved: Option<string>): (r: string)
    ensures IsHelperScriptId(env, r)
    ensures !windowDefined ==> r == DefaultHelperScript(env).id
    ensures windowDefined && saved.Some? && IsHelperScriptId(env, saved.value) ==> r == saved.value
    ensures (saved.None? || !IsHelperScriptId(env, saved.value)) ==> r == DefaultHelperScript(env).id
  {
    DefaultKnownEmptyUnknown(env);
    if !windowDefined then DefaultHelperScript(env).id
    else if saved.Some? && saved.value != "" && IsHelperScriptId(env, saved.value) then saved.value
    else DefaultHelperScript(env).id
  }

  /** The default script's id is known, and the empty string (which is falsy) is not. */
  lemma DefaultKnownEmptyUnknown(env: Option<string>)
    ensures IsHelperScriptId(env, DefaultHelperScript(env).id)
    ensures !IsHelperScriptId(env, "")
  {
    DefaultKnown(env);
    EmptyUnknown(env);
  }

  lemma DefaultKnown(env: Option<string>)
    ensures IsHelperScriptId(env, DefaultHelperScript(env).id)
  {
    assert HelperScripts(env)[0].id == DefaultHelperScript(env).id;
  }

  lemma EmptyUnknown(env: Option<string>)
    ensures !IsHelperScriptId(env, "")
  {
    var scripts := HelperScripts(env);
    IdsNonEmpty();
    forall i | 0 <= i < |scripts| ensures scripts[i].id != "" {
      assert scripts[i].id == HelperScriptIds[i];
    }
  }

  lemma IdsNonEmpty()
    ensures forall i | 0 <= i < |HelperScriptIds| :: HelperScriptIds[i] != ""
  {
  }

  /** No two scripts share an id. */
  lemma ScriptIdsDistinct()
    ensures forall i, j | 0 <= i < j < |HelperScriptIds| :: HelperScriptIds[i] != HelperScriptIds[j]
  {
  }

  /** The known ids are exactly the listed ones. */
  lemma IsHelperScriptIdIff(env: Option<string>, scriptId: string)
    ensures IsHelperScriptId(env, scriptId) <==> scriptId in HelperScriptIds
  {
    var scripts := HelperScripts(env);
    if scriptId in HelperScriptIds {
      var i :| 0 <= i < |HelperScriptIds| && HelperScriptIds[i] == scriptId;
      assert scripts[i].id == scriptId;
    }
  }

  /** Looking up a listed id gives that script; any other id gives the default script. */
  lemma GetHelperScriptByIdFinds(env: Option<string>, scriptId: string)
    ensures forall i | 0 <= i < |HelperScriptIds| :: HelperScriptIds[i] == scriptId ==>
      GetHelperScriptById(env, scriptId) == HelperScripts(env)[i]
    ensures scriptId !in HelperScriptIds ==> GetHelperScriptById(env, scriptId) == DefaultHelperScript(env)
  {
    var scripts := HelperScripts(env);
    IsHelperScriptIdIff(env, scriptId);
    ScriptIdsDistinct();
    if scriptId in HelperScriptIds {
      var found := ScriptsById(scripts)[scriptId];
      var k :| 0 <= k < |scripts| && scripts[k] == found;
      assert HelperScriptIds[k] == scriptId;
    }
  }

  /** Different scripts are fetched from different URLs. */
  lemma ScriptUrlsDistinct(env: Option<string>)
    ensures forall i, j | 0 <= i < j < |HelperScriptIds| :: HelperScripts(env)[i].url != HelperScripts(env)[j].url
  {
    ScriptIdsDistinct();
    forall i, j | 0 <= i < j < |HelperScriptIds| ensures HelperScripts(env)[i].url != HelperScripts(env)[j].url {
      Urls.BuildersInjective(env, HelperScriptIds[i], HelperScriptIds[j]);
    }
  }
}
