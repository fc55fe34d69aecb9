/**
 * `buildNightOrderCharacters`: the wake order for one night. The prebuilt steps that have a
 * reminder for that night and the script characters with a positive order number are put
 * together, prebuilt steps first, and sorted stably by that night's order number.
 */
module NightOrder {
  import opened Seqs
  import opened Sorting
  import opened HelperTypes
  import opened NightInfo

  /** The two tabs that show a night order. */
  predicate IsNightTab(tab: HelperTab) {
    tab == FirstNightTab || tab == OtherNightTab
  }

  /** `character[orderKey]`. */
  function OrderKey(c: Character, tab: HelperTab): real {
    if tab == FirstNightTab then c.firstNight else c.otherNight
  }

  /** `character[reminderKey]`. */
  function Reminder(c: Character, tab: HelperTab): string {
    if tab == FirstNightTab then c.firstNightReminder else c.otherNightReminder
  }

  /** The comparator `a[orderKey] - b[orderKey]`, read as "a may come before b". */
  function ByOrderKey(tab: HelperTab): (Character, Character) -> bool {
    (a: Character, b: Character) => OrderKey(a, tab) <= OrderKey(b, tab)
  }

  lemma ByOrderKeyTotal(tab: HelperTab)
    ensures TotalPreorder(ByOrderKey(tab))
  {
  }

  /** `prebuiltNightEntries`. */
  function PrebuiltEntries(tab: HelperTab): seq<Character> {
    Filter(PrebuiltNightSteps, (c: Character) => Reminder(c, tab) != "")
  }

  /** `playableCharacters`. */
  function PlayableCharacters(characters: seq<Character>, tab: HelperTab): seq<Character> {
    Filter(characters, (c: Character) => OrderKey(c, tab) > 0.0)
  }

  /** `buildNightOrderCharacters`; it returns a new sequence and leaves `characters` as it was. */
  function BuildNightOrderCharacters(characters: seq<Character>, tab: HelperTab): (r: seq<Character>)
    requires IsNightTab(tab)
    ensures multiset(r) == multiset(PrebuiltEntries(tab)) + multiset(PlayableCharacters(characters, tab))
  {
    Sort(PrebuiltEntries(tab) + PlayableCharacters(characters, tab), ByOrderKey(tab))
  }

  /** The order is non-decreasing in that night's order number. */
  lemma NightOrderSorted(characters: seq<Character>, tab: HelperTab)
    requires IsNightTab(tab)
    ensures var r := BuildNightOrderCharacters(characters, tab);
      forall i, j | 0 <= i < j < |r| :: OrderKey(r[i], tab) <= OrderKey(r[j], tab)
  {
    ByOrderKeyTotal(tab);
    SortSorted(PrebuiltEntries(tab) + PlayableCharacters(characters, tab), ByOrderKey(tab));
  }

  /** A script character is listed exactly when its order number for that night is positive. */
  lemma ScriptCharacterListed(characters: seq<Character>, tab: HelperTab, c: Character)
    requires IsNightTab(tab) && c in characters && c !in PrebuiltNightSteps
    ensures c in BuildNightOrderCharacters(characters, tab) <==> OrderKey(c, tab) > 0.0
  {
    var r := BuildNightOrderCharacters(characters, tab);
    FilterMembership(characters, (c: Character) => OrderKey(c, tab) > 0.0, c);
    FilterMembership(PrebuiltNightSteps, (c: Character) => Reminder(c, tab) != "", c);
    assert c in r <==> c in multiset(r);
    assert c in PrebuiltEntries(tab) + PlayableCharacters(characters, tab)
      <==> c in multiset(PrebuiltEntries(tab) + PlayableCharacters(characters, tab));
  }

  /** Everything listed is a kept prebuilt step or a script character with a positive order number. */
  lemma NightOrderMembers(characters: seq<Character>, tab: HelperTab, c: Character)
    requires IsNightTab(tab) && c in BuildNightOrderCharacters(characters, tab)
    ensures (c in PrebuiltNightSteps && Reminder(c, tab) != "") || (c in characters && OrderKey(c, tab) > 0.0)
  {
    var r := BuildNightOrderCharacters(characters, tab);
    FilterMembership(characters, (c: Character) => OrderKey(c, tab) > 0.0, c);
    FilterMembership(PrebuiltNightSteps, (c: Character) => Reminder(c, tab) != "", c);
    assert c in multiset(r);
    assert c in multiset(PrebuiltEntries(tab) + PlayableCharacters(characters, tab));
  }

  /** All four prebuilt steps are kept on the first night; only dusk and dawn on the others. */
  lemma PrebuiltEntriesByNight()
    ensures PrebuiltEntries(FirstNightTab) == [Dusk, Dawn, MinionInfo, DemonInfo]
    ensures PrebuiltEntries(OtherNightTab) == [Dusk, Dawn]
  {
    var first := (c: Character) => Reminder(c, FirstNightTab) != "";
    var other := (c: Character) => Reminder(c, OtherNightTab) != "";
    var s1, s2, s3 := [Dawn, MinionInfo, DemonInfo], [MinionInfo, DemonInfo], [DemonInfo];
    assert PrebuiltNightSteps[1..] == s1 && s1[1..] == s2 && s2[1..] == s3 && s3[1..] == [];
    assert Filter(s3, first) == [DemonInfo] && Filter(s3, other) == [];
    assert Filter(s2, first) == [MinionInfo, DemonInfo] && Filter(s2, other) == [];
    assert Filter(s1, first) == [Dawn, MinionInfo, DemonInfo] && Filter(s1, other) == [Dawn];
  }

  /** A step the script does not list is in the order exactly when it is a kept prebuilt step. */
  lemma PrebuiltStepListed(characters: seq<Character>, tab: HelperTab, c: Character)
    requires IsNightTab(tab) && c !in characters
    ensures c in BuildNightOrderCharacters(characters, tab) <==> c in PrebuiltEntries(tab)
  {
    var r := BuildNightOrderCharacters(characters, tab);
    FilterMembership(characters, (c: Character) => OrderKey(c, tab) > 0.0, c);
    assert c in r <==> c in multiset(r);
    assert c in PrebuiltEntries(tab) + PlayableCharacters(characters, tab)
      <==> c in multiset(PrebuiltEntries(tab) + PlayableCharacters(characters, tab));
  }

  /** Minion and demon set-up are therefore woken on the first night only. */
  lemma SetupStepsFirstNightOnly(characters: seq<Character>)
    requires MinionInfo !in characters && DemonInfo !in characters
    ensures MinionInfo in BuildNightOrderCharacters(characters, FirstNightTab)
    ensures DemonInfo in BuildNightOrderCharacters(characters, FirstNightTab)
    ensures MinionInfo !in BuildNightOrderCharacters(characters, OtherNightTab)
    ensures DemonInfo !in BuildNightOrderCharacters(characters, OtherNightTab)
  {
    PrebuiltEntriesByNight();
    PrebuiltStepListed(characters, FirstNightTab, MinionInfo);
    PrebuiltStepListed(characters, FirstNightTab, DemonInfo);
    PrebuiltStepListed(characters, OtherNightTab, MinionInfo);
    PrebuiltStepListed(characters, OtherNightTab, DemonInfo);
  }

  /**
   * Stability: entries with the same order number keep their relative order, so on a tie the
   * prebuilt steps come before the script characters, and the characters keep the script's order.
   */
  lemma TiesKeepInputOrder(characters: seq<Character>, tab: HelperTab, key: real)
    requires IsNightTab(tab)
    ensures var tied := (c: Character) => OrderKey(c, tab) == key;
      Filter(BuildNightOrderCharacters(characters, tab), tied)
        == Filter(PrebuiltEntries(tab), tied) + Filter(PlayableCharacters(characters, tab), tied)
  {
    var tied := (c: Character) => OrderKey(c, tab) == key;
    ByOrderKeyTotal(tab);
    SortStable(PrebuiltEntries(tab) + PlayableCharacters(characters, tab), ByOrderKey(tab), tied);
    FilterAppend(PrebuiltEntries(tab), PlayableCharacters(characters, tab), tied);
  }
}
