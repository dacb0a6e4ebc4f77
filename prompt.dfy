/** The system instruction the tutor sends first in every turn
    (build_prompt in ai_tutor.py). */
module Prompt {
  import opened Wrappers
  import opened Strings
  import opened Settings

  // The literal text between the interpolated fields of the instruction.
  const Opening := "\nEști un tutor AI care ajută utilizatorul să înțeleagă topicul: **"
  const AfterName := "**.\n\nDescriere topic:\n"
  const AfterDescription := "\n\nTitlurile notelor din acest topic:\n"
  const AfterTitles := "\n\nFragment notă selectată:\n"
  const AfterNote := "\n\nInstrucțiuni stil:\n- Răspunde în limba: "
  const AfterLanguage := "\n- "
  const Closing := "\n- Fii clar, logic și explicativ.\n"

  // The style phrase for each known depth.
  const ShortPhrase := "Răspunde scurt în 2-3 rânduri."
  const MediumPhrase := "Răspunde moderat, 4-8 rânduri."
  const DetailedPhrase := "Explică detaliat și pas cu pas, 8-15 rânduri."

  const DefaultLanguage := "RO"
  const DefaultDepth := "medium"
  const TitleSeparator := ", "

  /** The answer language: the `language` key, or "RO" when it is absent. */
  function LanguageOf(s: TutorSettings): string
  {
    s.language.GetOr(DefaultLanguage)
  }

  /** The answer depth: the `depth` key, or "medium" when it is absent. */
  function DepthOf(s: TutorSettings): string
  {
    s.depth.GetOr(DefaultDepth)
  }

  predicate KnownDepth(depth: string)
  {
    depth == "short" || depth == "medium" || depth == "detailed"
  }

  /** The fixed depth-to-phrase table; a depth outside it gives an empty
      phrase rather than an error. */
  function DepthPhrase(depth: string): (p: string)
    ensures p != "" <==> KnownDepth(depth)
  {
    if depth == "short" then ShortPhrase
    else if depth == "medium" then MediumPhrase
    else if depth == "detailed" then DetailedPhrase
    else ""
  }

  /** The table tells the known depths apart: two known depths give the same
      phrase exactly when they are the same depth. */
  lemma {:induction false} DepthPhraseInjective(d1: string, d2: string)
    requires KnownDepth(d1) && KnownDepth(d2)
    ensures DepthPhrase(d1) == DepthPhrase(d2) <==> d1 == d2
  {
  }

  /** The f-string's pieces in order: literal text at even positions, the
      interpolated fields at odd positions 1, 3, 5, 7, 9 and 11. */
  function PromptParts(name: string, description: string, titles: seq<string>,
                       noteContent: string, s: TutorSettings): seq<string>
  {
    [Opening, name, AfterName, description, AfterDescription, Join(titles, TitleSeparator),
     AfterTitles, noteContent, AfterNote, LanguageOf(s), AfterLanguage,
     DepthPhrase(DepthOf(s)), Closing]
  }

  /** build_prompt: the system instruction for a topic, its note titles, the
      selected note's text and the style settings. */
  function BuildPrompt(name: string, description: string, titles: seq<string>,
                       noteContent: string, s: TutorSettings): string
  {
    Concat(PromptParts(name, description, titles, noteContent, s))
  }

  /** The instruction opens with the fixed greeting, ends with the fixed
      closing line, and holds the topic name, the description, the joined
      titles, the note text, the language and the depth phrase verbatim, each
      at its place. */
  lemma {:induction false} PromptEmbedsContext(name: string, description: string, titles: seq<string>,
                            noteContent: string, s: TutorSettings)
    ensures var r := BuildPrompt(name, description, titles, noteContent, s);
            var parts := PromptParts(name, description, titles, noteContent, s);
            OccursAt(r, Opening, 0) && Offset(parts, 1) == |Opening|
            && OccursAt(r, name, Offset(parts, 1))
            && OccursAt(r, description, Offset(parts, 3))
            && OccursAt(r, Join(titles, TitleSeparator), Offset(parts, 5))
            && OccursAt(r, noteContent, Offset(parts, 7))
            && OccursAt(r, LanguageOf(s), Offset(parts, 9))
            && OccursAt(r, DepthPhrase(DepthOf(s)), Offset(parts, 11))
            && OccursAt(r, Closing, |r| - |Closing|)
  {
    var parts := PromptParts(name, description, titles, noteContent, s);
    ConcatEmbeds(parts, 0);
    assert parts[..0] == [];
    assert parts[..1] == [Opening];
    assert Concat(parts[..1]) == Opening + Concat([]);
    ConcatEmbeds(parts, 1);
    ConcatEmbeds(parts, 3);
    ConcatEmbeds(parts, 5);
    ConcatEmbeds(parts, 7);
    ConcatEmbeds(parts, 9);
    ConcatEmbeds(parts, 11);
    ConcatEndsWithLast(parts);
  }

  /** Every note title appears verbatim in the instruction, inside the
      comma-separated titles line. */
  lemma {:induction false} PromptListsEveryTitle(name: string, description: string, titles: seq<string>,
                              noteContent: string, s: TutorSettings, k: nat)
    requires k < |titles|
    ensures OccursAt(BuildPrompt(name, description, titles, noteContent, s), titles[k],
                     Offset(PromptParts(name, description, titles, noteContent, s), 5)
                     + JoinOffset(titles, TitleSeparator, k))
  {
    var parts := PromptParts(name, description, titles, noteContent, s);
    ConcatEmbeds(parts, 5);
    JoinEmbeds(titles, TitleSeparator, k);
    OccursWithin(Concat(parts), Join(titles, TitleSeparator), Offset(parts, 5),
                 titles[k], JoinOffset(titles, TitleSeparator, k));
  }

  /** With no note titles the titles line is empty: the description block is
      followed directly by the note-fragment heading. */
  lemma {:induction false} PromptWithoutTitles(name: string, description: string,
                            noteContent: string, s: TutorSettings)
    ensures OccursAt(BuildPrompt(name, description, [], noteContent, s),
                     AfterDescription + AfterTitles,
                     Offset(PromptParts(name, description, [], noteContent, s), 4))
  {
    var parts := PromptParts(name, description, [], noteContent, s);
    ConcatRun(parts, 4);
    JoinShortLists(TitleSeparator, "");
    assert parts[5] == "";
    assert parts[4] + parts[5] + parts[6] == AfterDescription + AfterTitles;
  }

  /** The defaults the lookups fall back on, and the empty style line of an
      unknown depth: the instruction then ends with the language, an empty
      bullet and the closing line. */
  lemma {:induction false} PromptDefaults(name: string, description: string, titles: seq<string>,
                       noteContent: string, s: TutorSettings)
    ensures var r := BuildPrompt(name, description, titles, noteContent, s);
            var parts := PromptParts(name, description, titles, noteContent, s);
            (s.language.None? ==> OccursAt(r, "RO", Offset(parts, 9)))
            && (s.depth.None? ==> OccursAt(r, MediumPhrase, Offset(parts, 11)))
            && (!KnownDepth(DepthOf(s)) ==>
                  OccursAt(r, AfterLanguage + Closing, Offset(parts, 10))
                  && Offset(parts, 10) + |AfterLanguage + Closing| == |r|)
  {
    var parts := PromptParts(name, description, titles, noteContent, s);
    ConcatEmbeds(parts, 9);
    ConcatEmbeds(parts, 11);
    if !KnownDepth(DepthOf(s)) {
      assert parts == parts[..10] + [AfterLanguage, "", Closing];
      ConcatAppend(parts[..10], [AfterLanguage, "", Closing]);
      ConcatThree(AfterLanguage, "", Closing);
      var x := Concat(parts[..10]);
      assert Concat(parts) == x + (AfterLanguage + Closing);
    }
  }

  /** Of the settings, only the language and the depth phrase reach the
      instruction, and each of them changes it: with everything else equal,
      two instructions are equal exactly when their languages are, and
      exactly when their depth phrases are. */
  lemma {:induction false} PromptSettingsDependence(name: string, description: string, titles: seq<string>,
                                 noteContent: string, s1: TutorSettings, s2: TutorSettings)
    ensures var p1 := BuildPrompt(name, description, titles, noteContent, s1);
            var p2 := BuildPrompt(name, description, titles, noteContent, s2);
            (DepthPhrase(DepthOf(s1)) == DepthPhrase(DepthOf(s2)) ==>
               (p1 == p2 <==> LanguageOf(s1) == LanguageOf(s2)))
            && (LanguageOf(s1) == LanguageOf(s2) ==>
               (p1 == p2 <==> DepthPhrase(DepthOf(s1)) == DepthPhrase(DepthOf(s2))))
  {
    var a := PromptParts(name, description, titles, noteContent, s1);
    var b := PromptParts(name, description, titles, noteContent, s2);
    if DepthPhrase(DepthOf(s1)) == DepthPhrase(DepthOf(s2)) {
      ConcatDiffersAt(a, b, 9);
    }
    if LanguageOf(s1) == LanguageOf(s2) {
      ConcatDiffersAt(a, b, 11);
    }
  }
}
