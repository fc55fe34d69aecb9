/**
 * `formatHelperMessage`: every `{character}` in a card's message becomes the selected character's
 * name, and then every `{alignment}` becomes the label of the chosen alignment.
 */
module MessageFormatter {
  import opened Strings
  import opened HelperTypes

  const CharacterPlaceholder: string := "{character}"
  const AlignmentPlaceholder: string := "{alignment}"
  const GoodAlignmentLabel: string := "선한 진영"
  const EvilAlignmentLabel: string := "악한 진영"

  /** The label shown for an alignment. */
  function AlignmentLabel(alignment: Alignment): (text: string)
    ensures alignment.Good? <==> text == GoodAlignmentLabel
    ensures alignment.Evil? <==> text == EvilAlignmentLabel
  {
    assert GoodAlignmentLabel[0] == '선' && EvilAlignmentLabel[0] == '악';
    if alignment.Good? then GoodAlignmentLabel else EvilAlignmentLabel
  }

  /**
   * `formatHelperMessage`: the character placeholder is substituted first. Both substitutions are
   * JavaScript replaces with a string argument, so a `$` pattern in the name is expanded.
   */
  function FormatHelperMessage(message: string, firstSelectedCharacterName: string, alignment: Alignment): string {
    JsReplaceAll(JsReplaceAll(message, CharacterPlaceholder, firstSelectedCharacterName), AlignmentPlaceholder, AlignmentLabel(alignment))
  }

  /** Neither alignment label contains `$`, so JavaScript inserts it as it is. */
  lemma LabelsDollarFree(alignment: Alignment)
    ensures '$' !in AlignmentLabel(alignment)
  {
    assert '$' !in GoodAlignmentLabel && '$' !in EvilAlignmentLabel;
  }

  /** A placeholder begins with `{` and has no other `{`, so two occurrences never overlap. */
  lemma {:induction false} BraceOnlyFirstBorderFree(pat: string)
    requires |pat| > 0 && pat[0] == '{' && '{' !in pat[1..]
    ensures BorderFree(pat)
  {
    forall k | 0 < k < |pat| ensures !IsBorder(pat, k) {
      assert pat[k] == pat[1..][k - 1];
      assert pat[k..][0] != pat[..|pat| - k][0];
    }
  }

  lemma PlaceholdersBorderFree()
    ensures BorderFree(CharacterPlaceholder) && BorderFree(AlignmentPlaceholder)
  {
    BraceOnlyFirstBorderFree(CharacterPlaceholder);
    BraceOnlyFirstBorderFree(AlignmentPlaceholder);
  }

  /**
   * The first `{character}` of the message becomes the name with its `$` patterns expanded in
   * that occurrence's context; the text before it is kept and the scan goes on after it.
   */
  lemma FirstCharacterPlaceholderExpanded(before: string, after: string, name: string)
    requires !Contains(before, CharacterPlaceholder)
    ensures JsReplaceAll(before + CharacterPlaceholder + after, CharacterPlaceholder, name)
         == before + ExpandReplacement(name, CharacterPlaceholder, before, after)
            + JsReplaceScan(before + CharacterPlaceholder, after, CharacterPlaceholder, name)
  {
    PlaceholdersBorderFree();
    JsReplaceFirstOccurrence(before, CharacterPlaceholder, after, name);
  }

  /**
   * A name without `$` replaces each `{character}` as it is, and the text around it is treated
   * the same way.
   */
  lemma CharacterPlaceholderReplaced(before: string, after: string, name: string)
    ensures '$' !in name ==>
      JsReplaceAll(before + CharacterPlaceholder + after, CharacterPlaceholder, name)
        == JsReplaceAll(before, CharacterPlaceholder, name) + name + JsReplaceAll(after, CharacterPlaceholder, name)
  {
    if '$' !in name {
      PlaceholdersBorderFree();
      JsReplaceAllDollarFree(before + CharacterPlaceholder + after, CharacterPlaceholder, name);
      JsReplaceAllDollarFree(before, CharacterPlaceholder, name);
      JsReplaceAllDollarFree(after, CharacterPlaceholder, name);
      ReplaceAllAround(before, CharacterPlaceholder, name, after);
    }
  }

  /**
   * A message with one `{character}` and no `{alignment}` shows the name with its `$` patterns
   * expanded between the text before and after the placeholder.
   */
  lemma OnlyCharacterPlaceholderExpanded(before: string, after: string, name: string, alignment: Alignment)
    requires !Contains(before, CharacterPlaceholder) && !Contains(after, CharacterPlaceholder)
    requires !Contains(before + ExpandReplacement(name, CharacterPlaceholder, before, after) + after, AlignmentPlaceholder)
    ensures FormatHelperMessage(before + CharacterPlaceholder + after, name, alignment)
         == before + ExpandReplacement(name, CharacterPlaceholder, before, after) + after
  {
    PlaceholdersBorderFree();
    JsReplaceOnlyOccurrence(before, CharacterPlaceholder, after, name);
    JsReplaceAllAbsent(before + ExpandReplacement(name, CharacterPlaceholder, before, after) + after,
                       AlignmentPlaceholder, AlignmentLabel(alignment));
  }

  /** `$&` in the name puts the placeholder itself back. */
  lemma MatchPatternKeepsPlaceholder(alignment: Alignment)
    ensures FormatHelperMessage(CharacterPlaceholder, "$&", alignment) == CharacterPlaceholder
  {
    assert ExpandReplacement("$&", CharacterPlaceholder, "", "") == CharacterPlaceholder;
    assert !Contains(CharacterPlaceholder, AlignmentPlaceholder) by {
      assert CharacterPlaceholder[1] != AlignmentPlaceholder[1];
    }
    OnlyCharacterPlaceholderExpanded("", "", "$&", alignment);
    assert "" + CharacterPlaceholder + "" == CharacterPlaceholder;
  }

  /** `$$` in the name gives a single `$`. */
  lemma DoubleDollarInName(alignment: Alignment)
    ensures FormatHelperMessage(CharacterPlaceholder, "a$$b", alignment) == "a$b"
  {
    assert ExpandReplacement("a$$b", CharacterPlaceholder, "", "") == "a$b";
    OnlyCharacterPlaceholderExpanded("", "", "a$$b", alignment);
    assert "" + CharacterPlaceholder + "" == CharacterPlaceholder;
  }

  /** `` $` `` and `$'` in the name insert the message text before and after the placeholder. */
  lemma ContextPatternsInName(alignment: Alignment)
    ensures FormatHelperMessage("x" + CharacterPlaceholder + "y", "$'$`", alignment) == "xyxy"
  {
    assert ExpandReplacement("$'$`", CharacterPlaceholder, "x", "y") == "yx";
    OnlyCharacterPlaceholderExpanded("x", "y", "$'$`", alignment);
  }

  /** Each `{alignment}` left after the first stage is replaced by the alignment's label. */
  lemma AlignmentPlaceholderReplaced(before: string, after: string, alignment: Alignment)
    ensures var shown := AlignmentLabel(alignment);
      JsReplaceAll(before + AlignmentPlaceholder + after, AlignmentPlaceholder, shown)
        == JsReplaceAll(before, AlignmentPlaceholder, shown) + shown + JsReplaceAll(after, AlignmentPlaceholder, shown)
  {
    var shown := AlignmentLabel(alignment);
    PlaceholdersBorderFree();
    LabelsDollarFree(alignment);
    JsReplaceAllDollarFree(before + AlignmentPlaceholder + after, AlignmentPlaceholder, shown);
    JsReplaceAllDollarFree(before, AlignmentPlaceholder, shown);
    JsReplaceAllDollarFree(after, AlignmentPlaceholder, shown);
    ReplaceAllAround(before, AlignmentPlaceholder, shown, after);
  }

  /** A message with neither placeholder is shown as it is, whatever the name. */
  lemma PlainMessageUnchanged(message: string, name: string, alignment: Alignment)
    requires !Contains(message, CharacterPlaceholder) && !Contains(message, AlignmentPlaceholder)
    ensures FormatHelperMessage(message, name, alignment) == message
  {
    JsReplaceAllAbsent(message, CharacterPlaceholder, name);
    JsReplaceAllAbsent(message, AlignmentPlaceholder, AlignmentLabel(alignment));
  }

  /** A message that is just a placeholder becomes the replacement. */
  lemma PlaceholderAlone(pat: string, rep: string)
    requires |pat| > 0 && BorderFree(pat)
    ensures ReplaceAll(pat, pat, rep) == rep
  {
    ReplaceAllAround([], pat, rep, []);
    assert [] + pat + [] == pat;
  }

  /**
   * Because `{character}` is substituted first, a name that itself reads `{alignment}` is
   * turned into the alignment's label.
   */
  lemma CharacterSubstitutedFirst(alignment: Alignment)
    ensures FormatHelperMessage(CharacterPlaceholder, AlignmentPlaceholder, alignment) == AlignmentLabel(alignment)
  {
    PlaceholdersBorderFree();
    LabelsDollarFree(alignment);
    JsReplaceAllDollarFree(CharacterPlaceholder, CharacterPlaceholder, AlignmentPlaceholder);
    PlaceholderAlone(CharacterPlaceholder, AlignmentPlaceholder);
    JsReplaceAllDollarFree(AlignmentPlaceholder, AlignmentPlaceholder, AlignmentLabel(alignment));
    PlaceholderAlone(AlignmentPlaceholder, AlignmentLabel(alignment));
  }
}
