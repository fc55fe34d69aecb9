/**
 * `useCharacterDialogState`: the dialog that shows a character's information cards. Choosing a
 * card resets the selection; characters are then picked for the card, up to its `count`, the
 * oldest pick giving way to a new one. The selection is a JavaScript `Set`, which keeps
 * insertion order: here a sequence without repeats.
 */
module CharacterDialog {
  import opened Wrappers
  import opened Seqs
  import opened HelperTypes
  import opened CharacterInfoMap

  /** `selectedInfo?.count ?? Number.POSITIVE_INFINITY`. */
  datatype Bound = Unbounded | AtMost(n: int)

  function MaxCount(selectedInfo: Option<HelperInfo>): (b: Bound)
    ensures b.AtMost? <==> selectedInfo.Some? && selectedInfo.value.count.Some?
    ensures b.AtMost? ==> b.n == selectedInfo.value.count.value
  {
    if selectedInfo.Some? && selectedInfo.value.count.Some? then AtMost(selectedInfo.value.count.value) else Unbounded
  }

  /** The selection holds more than `max` allows: `length >= maxCount`. */
  predicate Full(selection: seq<string>, bound: Bound) {
    bound.AtMost? && |selection| >= bound.n
  }

  /** The test `selectedId !== characterId`. */
  function NotId(id: string): string -> bool {
    (x: string) => x != id
  }

  /**
   * The updater passed to `setSelectedCharacterIds`: the next selection, and whether
   * `onCharacterSelectionChange` was called.
   */
  function NextSelection(prev: seq<string>, id: string, bound: Bound): (seq<string>, bool) {
    if id in prev then (Filter(prev, NotId(id)), false)
    else if bound.AtMost? && bound.n <= 0 then (prev, false)
    else
      var kept := if Full(prev, bound) && |prev| > 0 then prev[1..] else prev;
      (kept + [id], true)
  }

  /** Clicking a selected character removes it and nothing else, keeping the others in order. */
  lemma DeselectRemovesOnlyIt(prev: seq<string>, id: string, bound: Bound)
    requires id in prev
    ensures var (next, fired) := NextSelection(prev, id, bound);
      !fired && id !in next && (forall x | x != id :: x in next <==> x in prev)
      && (Distinct(prev) ==> exists i | 0 <= i < |prev| && prev[i] == id :: next == prev[..i] + prev[i + 1..])
  {
    var p := NotId(id);
    forall x ensures x in Filter(prev, p) <==> x in prev && p(x) {
      FilterMembership(prev, p, x);
    }
    if Distinct(prev) {
      var i :| 0 <= i < |prev| && prev[i] == id;
      RemoveSingle(prev, id, i);
    }
  }

  /** When `id` sits only at position `i`, filtering it out cuts out that one position. */
  lemma RemoveSingle(prev: seq<string>, id: string, i: int)
    requires 0 <= i < |prev| && prev[i] == id
    requires forall k | 0 <= k < |prev| && k != i :: prev[k] != id
    ensures Filter(prev, NotId(id)) == prev[..i] + prev[i + 1..]
  {
    var p := NotId(id);
    var before, after := prev[..i], prev[i + 1..];
    assert prev == before + [id] + after;
    forall k | 0 <= k < |before| ensures p(before[k]) {
      assert before[k] == prev[k];
    }
    forall k | 0 <= k < |after| ensures p(after[k]) {
      assert after[k] == prev[i + 1 + k];
    }
    assert Filter([id], p) == [] by {
      assert [id][1..] == [];
    }
    calc {
      Filter(prev, p);
      Filter(before + [id] + after, p);
      { FilterAppend(before + [id], after, p); }
      Filter(before + [id], p) + Filter(after, p);
      { FilterAppend(before, [id], p); }
      Filter(before, p) + Filter([id], p) + Filter(after, p);
      { FilterKeepsAll(before, p); FilterKeepsAll(after, p); }
      before + [] + after;
      { assert before + [] == before; }
      before + after;
    }
  }

  /** Filtering by a test every element passes keeps the sequence. */
  lemma {:induction false} FilterKeepsAll<T>(s: seq<T>, p: T -> bool)
    requires forall i | 0 <= i < |s| :: p(s[i])
    ensures Filter(s, p) == s
  {
    if s != [] {
      FilterKeepsAll(s[1..], p);
    }
  }

  /** With `count <= 0` a new character cannot be picked. */
  lemma ZeroCountKeepsSelection(prev: seq<string>, id: string, n: int)
    requires id !in prev && n <= 0
    ensures NextSelection(prev, id, AtMost(n)) == (prev, false)
  {
  }

  /** A full selection loses its oldest pick before the new one is appended. */
  lemma FullSelectionDropsOldest(prev: seq<string>, id: string, n: int)
    requires id !in prev && 1 <= n <= |prev|
    ensures NextSelection(prev, id, AtMost(n)) == (prev[1..] + [id], true)
  {
  }

  /** Without a `count` every new pick is appended. */
  lemma UnboundedAppends(prev: seq<string>, id: string)
    requires id !in prev
    ensures NextSelection(prev, id, Unbounded) == (prev + [id], true)
  {
  }

  /**
   * The selection stays within a positive bound, never repeats an id, ends with a newly picked
   * id, and the change callback fires exactly for additions.
   */
  lemma SelectionStep(prev: seq<string>, id: string, bound: Bound)
    requires Distinct(prev)
    ensures var (next, fired) := NextSelection(prev, id, bound);
      Distinct(next)
      && (bound.AtMost? && bound.n >= 1 && |prev| <= bound.n ==> |next| <= bound.n)
      && (fired <==> id !in prev && !(bound.AtMost? && bound.n <= 0))
      && (fired ==> |next| > 0 && next[|next| - 1] == id && id in next)
  {
    var (next, fired) := NextSelection(prev, id, bound);
    if id in prev {
      DeselectRemovesOnlyIt(prev, id, bound);
      var i :| 0 <= i < |prev| && prev[i] == id && next == prev[..i] + prev[i + 1..];
      CutKeepsDistinct(prev, i);
    } else if fired {
      var kept := if Full(prev, bound) && |prev| > 0 then prev[1..] else prev;
      assert next == kept + [id];
      AppendKeepsDistinct(prev, kept, id);
    }
  }

  /** Cutting out one position keeps the ids distinct. */
  lemma CutKeepsDistinct(prev: seq<string>, i: int)
    requires Distinct(prev) && 0 <= i < |prev|
    ensures Distinct(prev[..i] + prev[i + 1..])
  {
    var next := prev[..i] + prev[i + 1..];
    forall a, b | 0 <= a < b < |next| ensures next[a] != next[b] {
      var a', b' := if a < i then a else a + 1, if b < i then b else b + 1;
      assert next[a] == prev[a'] && next[b] == prev[b'];
    }
  }

  /** Appending a new id to the selection, or to it without its oldest pick, keeps the ids distinct. */
  lemma AppendKeepsDistinct(prev: seq<string>, kept: seq<string>, id: string)
    requires Distinct(prev) && id !in prev
    requires kept == prev || (|prev| > 0 && kept == prev[1..])
    ensures Distinct(kept + [id])
  {
    assert forall k | 0 <= k < |kept| :: kept[k] in prev;
  }

  /** `eligibleCharacters`: none without teams; otherwise the script's characters of those teams, in script order. */
  function EligibleCharacters(selectedInfo: Option<HelperInfo>, scriptCharacters: seq<Character>): (r: seq<Character>)
    ensures selectedInfo.None? || selectedInfo.value.teams.None? ==> r == []
    ensures forall c ::
      c in r <==> selectedInfo.Some? && selectedInfo.value.teams.Some? && c in scriptCharacters
                  && c.team.Some? && c.team.value in selectedInfo.value.teams.value
  {
    if selectedInfo.None? || selectedInfo.value.teams.None? then []
    else
      var teams := selectedInfo.value.teams.value;
      var p := (c: Character) => c.team.Some? && c.team.value in teams;
      assert forall c :: c in Filter(scriptCharacters, p) <==> c in scriptCharacters && p(c) by {
        forall c { FilterMembership(scriptCharacters, p, c); }
      }
      Filter(scriptCharacters, p)
  }

  /**
   * Script order: the eligible characters of a script split in two are those of the first part
   * followed by those of the second; a single character is kept, once, exactly when its team is
   * one of the card's.
   */
  lemma EligibleInScriptOrder(selectedInfo: Option<HelperInfo>, a: seq<Character>, b: seq<Character>, c: Character)
    ensures EligibleCharacters(selectedInfo, a + b) == EligibleCharacters(selectedInfo, a) + EligibleCharacters(selectedInfo, b)
    ensures EligibleCharacters(selectedInfo, [c])
         == if selectedInfo.Some? && selectedInfo.value.teams.Some? && c.team.Some? && c.team.value in selectedInfo.value.teams.value
            then [c] else []
  {
    if selectedInfo.Some? && selectedInfo.value.teams.Some? {
      var teams := selectedInfo.value.teams.value;
      FilterAppend(a, b, (c: Character) => c.team.Some? && c.team.value in teams);
      assert [c][1..] == [];
    }
  }

  /** Position `i` holds the first character with that id. */
  predicate FirstWithId(scriptCharacters: seq<Character>, id: string, i: int) {
    0 <= i < |scriptCharacters| && scriptCharacters[i].id == id
    && forall j | 0 <= j < i :: scriptCharacters[j].id != id
  }

  /** `scriptCharacters.find(c => c.id === id)`. */
  function FindById(scriptCharacters: seq<Character>, id: string): (r: Option<Character>)
    ensures r.None? <==> forall i | 0 <= i < |scriptCharacters| :: scriptCharacters[i].id != id
    ensures r.Some? ==> exists i | FirstWithId(scriptCharacters, id, i) :: scriptCharacters[i] == r.value
  {
    if scriptCharacters == [] then None
    else if scriptCharacters[0].id == id then
      assert FirstWithId(scriptCharacters, id, 0);
      Some(scriptCharacters[0])
    else
      var rest := scriptCharacters[1..];
      var r := FindById(rest, id);
      assert forall i | 0 < i < |scriptCharacters| :: scriptCharacters[i] == rest[i - 1];
      if r.Some? then
        var i :| FirstWithId(rest, id, i) && rest[i] == r.value;
        assert FirstWithId(scriptCharacters, id, i + 1);
        r
      else
        r
  }

  /** `firstSelectedCharacterName`: the quoted name of the earliest pick, or `''`. */
  function FirstSelectedCharacterName(scriptCharacters: seq<Character>, selection: seq<string>): (name: string)
    ensures selection == [] ==> name == ""
    ensures selection != [] && FindById(scriptCharacters, selection[0]).None? ==> name == ""
    ensures selection != [] && FindById(scriptCharacters, selection[0]).Some? ==>
      name == "'" + FindById(scriptCharacters, selection[0]).value.name + "'"
      && FindById(scriptCharacters, selection[0]).value.id == selection[0]
  {
    if selection == [] then ""
    else
      match FindById(scriptCharacters, selection[0])
      case None => ""
      case Some(c) => "'" + c.name + "'"
  }

  /** `selectedScriptCharacters`: the script's characters that are picked, in script order. */
  function SelectedScriptCharacters(scriptCharacters: seq<Character>, selection: seq<string>): (r: seq<Character>)
    ensures forall c :: c in r <==> c in scriptCharacters && c.id in selection
  {
    var p := (c: Character) => c.id in selection;
    assert forall c :: c in Filter(scriptCharacters, p) <==> c in scriptCharacters && p(c) by {
      forall c { FilterMembership(scriptCharacters, p, c); }
    }
    Filter(scriptCharacters, p)
  }

  /**
   * Script order: the picked characters of a script split in two are those of the first part
   * followed by those of the second; a single character is kept, once, exactly when it is picked.
   */
  lemma SelectedInScriptOrder(a: seq<Character>, b: seq<Character>, selection: seq<string>, c: Character)
    ensures SelectedScriptCharacters(a + b, selection)
         == SelectedScriptCharacters(a, selection) + SelectedScriptCharacters(b, selection)
    ensures SelectedScriptCharacters([c], selection) == if c.id in selection then [c] else []
  {
    FilterAppend(a, b, (c: Character) => c.id in selection);
    assert [c][1..] == [];
  }

  /** The dialog's state. `selectionChanges` counts the calls of `onCharacterSelectionChange`. */
  class CharacterDialogState {
    const characterId: string
    var selectedInfo: Option<HelperInfo>
    var selectedCharacterIds: seq<string>
    var selectedAlignment: Alignment
    var selectionChanges: nat

    /** The selection never repeats an id. */
    predicate Valid()
      reads this
    {
      Distinct(selectedCharacterIds)
    }

    constructor (characterId: string)
      ensures this.characterId == characterId && Valid()
      ensures selectedInfo.None? && selectedCharacterIds == [] && selectedAlignment == Good && selectionChanges == 0
    {
      this.characterId := characterId;
      selectedInfo := None;
      selectedCharacterIds := [];
      selectedAlignment := Good;
      selectionChanges := 0;
    }

    /** `characterInfos`. */
    function CharacterInfos(): seq<HelperInfo>
      reads this
    {
      GetCharacterInfos(characterId)
    }

    method SetSelectedAlignment(alignment: Alignment)
      modifies this
      ensures selectedAlignment == alignment
      ensures selectedInfo == old(selectedInfo) && selectedCharacterIds == old(selectedCharacterIds)
      ensures selectionChanges == old(selectionChanges)
    {
      selectedAlignment := alignment;
    }

    /** `resetSelection`. */
    method ResetSelection()
      modifies this
      ensures selectedCharacterIds == [] && Valid()
      ensures selectedInfo == old(selectedInfo) && selectedAlignment == old(selectedAlignment)
      ensures selectionChanges == old(selectionChanges)
    {
      selectedCharacterIds := [];
    }

    /** `handleBackClick`: back to the list of cards, with nothing picked. */
    method HandleBackClick()
      modifies this
      ensures selectedInfo.None? && selectedCharacterIds == [] && Valid()
      ensures selectedAlignment == old(selectedAlignment) && selectionChanges == old(selectionChanges)
    {
      selectedInfo := None;
      ResetSelection();
    }

    /** `handleInfoClick`: open a card, with nothing picked. */
    method HandleInfoClick(info: HelperInfo)
      modifies this
      ensures selectedInfo == Some(info) && selectedCharacterIds == [] && Valid()
      ensures selectedAlignment == old(selectedAlignment) && selectionChanges == old(selectionChanges)
    {
      selectedInfo := Some(info);
      ResetSelection();
    }

    /** `handleCharacterSelect`, working on a copy of the selection as the updater does. */
    method HandleCharacterSelect(id: string)
      requires Valid()
      modifies this
      ensures Valid()
      ensures var (next, fired) := NextSelection(old(selectedCharacterIds), id, MaxCount(selectedInfo));
        selectedCharacterIds == next && selectionChanges == old(selectionChanges) + (if fired then 1 else 0)
      ensures selectedInfo == old(selectedInfo) && selectedAlignment == old(selectedAlignment)
    {
      SelectionStep(selectedCharacterIds, id, MaxCount(selectedInfo));
      var nextIds := selectedCharacterIds;
      var maxCount := MaxCount(selectedInfo);
      if id in nextIds {
        selectedCharacterIds := Filter(nextIds, NotId(id));
        return;
      }
      if maxCount.AtMost? && maxCount.n <= 0 {
        return;
      }
      if Full(nextIds, maxCount) && |nextIds| > 0 {
        nextIds := nextIds[1..];
      }
      nextIds := nextIds + [id];
      selectionChanges := selectionChanges + 1;
      selectedCharacterIds := nextIds;
    }
  }
}
