/**
 * `buildScriptCategories`: the scripts page shows three groups, official, community and
 * Teensyville. Each script goes to exactly one of them: official scripts to the official group
 * (even when they are also Teensyville scripts), other Teensyville scripts to the Teensyville
 * group, and the rest to the community group. Within a group the scripts keep their order.
 */
module ScriptCategories {
  import opened Seqs

  /** A script card of the scripts page. */
  datatype Script = Script(
    id: string,
    official: bool,
    teensyville: bool,
    synopsis: string,
    logo: string,
    name: string,
    author: string,
    note: string,
    json: string,
    pdf: string)

  datatype ScriptCategoryGroup = ScriptCategoryGroup(id: string, title: string, scripts: seq<Script>)

  /** `SECTIONS`. */
  const OfficialSection: string := "official"
  const CommunitySection: string := "community"
  const TeensyvilleSection: string := "teensyville"

  predicate InOfficial(script: Script) {
    script.official
  }

  predicate InTeensyville(script: Script) {
    !script.official && script.teensyville
  }

  predicate InCommunity(script: Script) {
    !script.official && !script.teensyville
  }

  /** The groups, in the order the page shows them, for the given bucket contents. */
  function Groups(official: seq<Script>, community: seq<Script>, teensyville: seq<Script>): seq<ScriptCategoryGroup> {
    [
      ScriptCategoryGroup(OfficialSection, "공식 스크립트", official),
      ScriptCategoryGroup(CommunitySection, "커스텀 스크립트", community),
      ScriptCategoryGroup(TeensyvilleSection, "틴시빌 스크립트", teensyville)
    ]
  }

  /** `buildScriptCategories`: the `reduce` pushes each script into one bucket. */
  method BuildScriptCategories(scripts: seq<Script>) returns (groups: seq<ScriptCategoryGroup>)
    ensures groups == Groups(Filter(scripts, InOfficial), Filter(scripts, InCommunity), Filter(scripts, InTeensyville))
  {
    var official: seq<Script> := [];
    var community: seq<Script> := [];
    var teensyville: seq<Script> := [];
    var i := 0;
    while i < |scripts|
      invariant 0 <= i <= |scripts|
      invariant official == Filter(scripts[..i], InOfficial)
      invariant community == Filter(scripts[..i], InCommunity)
      invariant teensyville == Filter(scripts[..i], InTeensyville)
    {
      var script := scripts[i];
      assert scripts[..i + 1][..i] == scripts[..i];
      FilterLast(scripts[..i + 1], InOfficial);
      FilterLast(scripts[..i + 1], InCommunity);
      FilterLast(scripts[..i + 1], InTeensyville);
      if script.official {
        official := official + [script];
      } else if script.teensyville {
        teensyville := teensyville + [script];
      } else {
        community := community + [script];
      }
      i := i + 1;
    }
    assert scripts[..i] == scripts;
    groups := Groups(official, community, teensyville);
  }

  /** Every script is in exactly one group: together the groups are the scripts, each once. */
  lemma {:induction false} GroupsPartitionScripts(scripts: seq<Script>)
    ensures multiset(Filter(scripts, InOfficial)) + multiset(Filter(scripts, InCommunity))
          + multiset(Filter(scripts, InTeensyville)) == multiset(scripts)
    ensures |Filter(scripts, InOfficial)| + |Filter(scripts, InCommunity)| + |Filter(scripts, InTeensyville)| == |scripts|
  {
    if scripts != [] {
      GroupsPartitionScripts(scripts[1..]);
      assert scripts == [scripts[0]] + scripts[1..];
    }
  }

  /** Which group a script lands in. */
  lemma GroupOfScript(scripts: seq<Script>, script: Script)
    requires script in scripts
    ensures script in Filter(scripts, InOfficial) <==> script.official
    ensures script in Filter(scripts, InTeensyville) <==> !script.official && script.teensyville
    ensures script in Filter(scripts, InCommunity) <==> !script.official && !script.teensyville
  {
    FilterMembership(scripts, InOfficial, script);
    FilterMembership(scripts, InTeensyville, script);
    FilterMembership(scripts, InCommunity, script);
  }

  /** Building the groups from two lists of scripts puts the first list's scripts first in every group. */
  lemma GroupsKeepOrder(a: seq<Script>, b: seq<Script>)
    ensures Filter(a + b, InOfficial) == Filter(a, InOfficial) + Filter(b, InOfficial)
    ensures Filter(a + b, InCommunity) == Filter(a, InCommunity) + Filter(b, InCommunity)
    ensures Filter(a + b, InTeensyville) == Filter(a, InTeensyville) + Filter(b, InTeensyville)
  {
    FilterAppend(a, b, InOfficial);
    FilterAppend(a, b, InCommunity);
    FilterAppend(a, b, InTeensyville);
  }
}
