/**
 * `useHelperCharacters`: the characters of a helper script are its character entries except the
 * travellers, and the first-night and other-night orders are built from those characters.
 *
 * The memoisation of the hook is not modelled: the three lists are computed from the entries.
 * `isCharacterEntry` is the `CharacterEntry` tag of `HelperEntry`.
 */
module HelperCharacters {
  import opened Wrappers
  import opened Seqs
  import opened HelperTypes
  import opened NightInfo
  import opened NightOrder

  /** `entries.filter(isCharacterEntry)`. */
  function CharacterEntries(entries: seq<HelperEntry>): (r: seq<Character>)
    ensures |r| <= |entries|
    ensures forall c :: c in r <==> CharacterEntry(c) in entries
  {
    if entries == [] then []
    else
      var rest := CharacterEntries(entries[1..]);
      assert forall e :: e in entries <==> e == entries[0] || e in entries[1..];
      if entries[0].CharacterEntry? then [entries[0].character] + rest else rest
  }

  /** `character.team !== Team.Traveler`; a character without a team is kept. */
  predicate NotTraveler(c: Character) {
    c.team != Some(Traveler)
  }

  /** The `characters` list of the hook. */
  function ScriptCharacters(entries: seq<HelperEntry>): seq<Character> {
    Filter(CharacterEntries(entries), NotTraveler)
  }

  /** A character is listed exactly when the script has it and it is not a traveller. */
  lemma ScriptCharactersMembers(entries: seq<HelperEntry>, c: Character)
    ensures c in ScriptCharacters(entries) <==> CharacterEntry(c) in entries && NotTraveler(c)
  {
    FilterMembership(CharacterEntries(entries), NotTraveler, c);
  }

  /** The characters keep the order of their entries. */
  lemma {:induction false} CharacterEntriesInOrder(a: seq<HelperEntry>, b: seq<HelperEntry>)
    ensures CharacterEntries(a + b) == CharacterEntries(a) + CharacterEntries(b)
  {
    if a == [] {
      assert a + b == b;
    } else {
      assert (a + b)[0] == a[0] && (a + b)[1..] == a[1..] + b;
      CharacterEntriesInOrder(a[1..], b);
    }
  }

  /** The script's meta entry contributes nothing. */
  lemma MetaEntryIgnored(before: seq<HelperEntry>, meta: HelperScriptMeta, after: seq<HelperEntry>)
    ensures ScriptCharacters(before + [ScriptMetaEntry(meta)] + after) == ScriptCharacters(before + after)
  {
    CharacterEntriesInOrder(before + [ScriptMetaEntry(meta)], after);
    CharacterEntriesInOrder(before, [ScriptMetaEntry(meta)]);
    CharacterEntriesInOrder(before, after);
    assert [ScriptMetaEntry(meta)][1..] == [];
    assert CharacterEntries([ScriptMetaEntry(meta)]) == [];
    assert CharacterEntries(before + [ScriptMetaEntry(meta)]) == CharacterEntries(before);
  }

  /** What the hook returns. */
  datatype HelperCharacterLists = HelperCharacterLists(
    characters: seq<Character>,
    firstNightCharacters: seq<Character>,
    otherNightCharacters: seq<Character>)

  /** `useHelperCharacters`. */
  function UseHelperCharacters(entries: seq<HelperEntry>): HelperCharacterLists {
    var characters := ScriptCharacters(entries);
    HelperCharacterLists(
      characters,
      BuildNightOrderCharacters(characters, FirstNightTab),
      BuildNightOrderCharacters(characters, OtherNightTab))
  }

  /** Travellers are woken on neither night: every script character in a night order is not a traveller. */
  lemma NoTravelerInNightOrders(entries: seq<HelperEntry>, c: Character)
    requires c !in PrebuiltNightSteps
    ensures c in UseHelperCharacters(entries).firstNightCharacters ==> CharacterEntry(c) in entries && NotTraveler(c)
    ensures c in UseHelperCharacters(entries).otherNightCharacters ==> CharacterEntry(c) in entries && NotTraveler(c)
  {
    var characters := ScriptCharacters(entries);
    ScriptCharactersMembers(entries, c);
    if c in UseHelperCharacters(entries).firstNightCharacters {
      NightOrderMembers(characters, FirstNightTab, c);
    }
    if c in UseHelperCharacters(entries).otherNightCharacters {
      NightOrderMembers(characters, OtherNightTab, c);
    }
  }

  /** A script character that is not a traveller is woken on a night exactly when its number for that night is positive. */
  lemma ScriptCharacterWoken(entries: seq<HelperEntry>, c: Character)
    requires CharacterEntry(c) in entries && NotTraveler(c) && c !in PrebuiltNightSteps
    ensures c in UseHelperCharacters(entries).firstNightCharacters <==> c.firstNight > 0.0
    ensures c in UseHelperCharacters(entries).otherNightCharacters <==> c.otherNight > 0.0
  {
    var characters := ScriptCharacters(entries);
    ScriptCharactersMembers(entries, c);
    ScriptCharacterListed(characters, FirstNightTab, c);
    ScriptCharacterListed(characters, OtherNightTab, c);
  }
}
