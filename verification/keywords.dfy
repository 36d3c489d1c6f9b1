/** `extract_keywords`: eleven keyword rules, overlapping the entity rules,
    whose labels are returned as `sorted(set(...))`
    (physician_notetaker_app.py:79-103).
 */
module Keywords {
  import opened Text
  import opened SortedSets
  import opened Rules

  const WhiplashKeyword := Rule(["whiplash injury"], "Whiplash injury")
  const PhysiotherapyKeyword := Rule(["ten sessions", "10 sessions", "physiotherapy"], "10 physiotherapy sessions")
  const PainkillersKeyword := Rule(["painkillers"], "Painkillers")
  const BackPainKeyword := Rule(["back pain"], "Back pain")
  const NeckPainKeyword := Rule(["neck pain"], "Neck pain")
  const HeadImpactKeyword := Rule(["head impact", "head hit my head"], "Head impact")
  const TroubleSleepingKeyword := Rule(["trouble sleeping"], "Trouble sleeping")
  const DiscomfortKeyword := Rule(["discomfort"], "Discomfort")
  const FullRecoveryKeyword := Rule(["full recovery"], "Full recovery")
  const StiffnessKeyword := Rule(["stiffness"], "Stiffness")
  const BackacheKeyword := Rule(["backache"], "Backache")

  /** The rules in the order the source tests them. */
  const KeywordRules: seq<Rule> := [
    WhiplashKeyword, PhysiotherapyKeyword, PainkillersKeyword, BackPainKeyword,
    NeckPainKeyword, HeadImpactKeyword, TroubleSleepingKeyword, DiscomfortKeyword,
    FullRecoveryKeyword, StiffnessKeyword, BackacheKeyword
  ]

  /** The same rules, listed by label in code-point order. */
  const AlphabeticalRules: seq<Rule> := [
    PhysiotherapyKeyword, BackPainKeyword, BackacheKeyword, DiscomfortKeyword,
    FullRecoveryKeyword, HeadImpactKeyword, NeckPainKeyword, PainkillersKeyword,
    StiffnessKeyword, TroubleSleepingKeyword, WhiplashKeyword
  ]

  function ExtractKeywords(text: string): (ks: seq<string>)
    ensures StrictlySorted(ks)
    ensures forall k :: k in ks ==> k in Labels(KeywordRules)
  {
    var found := Select(KeywordRules, text);
    SelectSubsequence(KeywordRules, text);
    SubsequenceMembers(found, Labels(KeywordRules));
    SortDedup(found)
  }

  /** The eleven labels, neighbour by neighbour, in code-point order. */
  lemma LabelOrder()
    ensures StrLess("10 physiotherapy sessions", "Back pain")
    ensures StrLess("Back pain", "Backache")
    ensures StrLess("Backache", "Discomfort")
    ensures StrLess("Discomfort", "Full recovery")
    ensures StrLess("Full recovery", "Head impact")
    ensures StrLess("Head impact", "Neck pain")
    ensures StrLess("Neck pain", "Painkillers")
    ensures StrLess("Painkillers", "Stiffness")
    ensures StrLess("Stiffness", "Trouble sleeping")
    ensures StrLess("Trouble sleeping", "Whiplash injury")
  {
  }

  /** The alphabetical table really is in code-point order. */
  lemma AlphabeticalLabelsSorted()
    ensures StrictlySorted(Labels(AlphabeticalRules))
  {
    var ls := Labels(AlphabeticalRules);
    assert ls[0] == "10 physiotherapy sessions" && ls[1] == "Back pain" && ls[2] == "Backache";
    assert ls[3] == "Discomfort" && ls[4] == "Full recovery" && ls[5] == "Head impact";
    assert ls[6] == "Neck pain" && ls[7] == "Painkillers" && ls[8] == "Stiffness";
    assert ls[9] == "Trouble sleeping" && ls[10] == "Whiplash injury";
    LabelOrder();
    AscendingIsStrictlySorted(ls);
  }

  /** Where each rule of the source-order table sits in the alphabetical one,
      and back. */
  const AlphabeticalPosition: seq<int> := [10, 0, 7, 1, 6, 5, 9, 3, 4, 8, 2]
  const SourcePosition: seq<int> := [1, 3, 10, 7, 8, 5, 4, 2, 9, 6, 0]

  /** The eleven labels are pairwise different: each is the label at a
      different position of the strictly sorted alphabetical table. */
  lemma KeywordLabelsDistinct()
    ensures Distinct(Labels(KeywordRules))
  {
    var pos, back := AlphabeticalPosition, SourcePosition;
    var xs, ss := Labels(KeywordRules), Labels(AlphabeticalRules);
    forall i | 0 <= i < |xs|
      ensures 0 <= pos[i] < |ss| && xs[i] == ss[pos[i]]
      ensures 0 <= pos[i] < |back| && back[pos[i]] == i
    {
      assert KeywordRules[i] == AlphabeticalRules[pos[i]];
    }
    AlphabeticalLabelsSorted();
    DistinctByPosition(xs, ss, pos, back);
  }

  /** The two tables hold the same rules. */
  lemma SameRules(r: Rule)
    ensures r in KeywordRules <==> r in AlphabeticalRules
  {
  }

  /** Reference definition: the keywords are what running the alphabetically
      ordered table yields, so `sorted(set(...))` only reorders rule hits. */
  lemma KeywordsAreAlphabeticalSelection(text: string)
    ensures ExtractKeywords(text) == Select(AlphabeticalRules, text)
  {
    var sorted := Select(AlphabeticalRules, text);
    AlphabeticalLabelsSorted();
    SelectSorted(AlphabeticalRules, text);
    forall r ensures r in KeywordRules <==> r in AlphabeticalRules {
      SameRules(r);
    }
    forall y ensures y in ExtractKeywords(text) <==> y in sorted {
      SelectSameRules(KeywordRules, AlphabeticalRules, text, y);
    }
    SortedUnique(ExtractKeywords(text), sorted);
  }

  /** Each of the eleven labels is reported exactly when its pattern occurs. */
  lemma KeywordIff(text: string, i: int)
    requires 0 <= i < |KeywordRules|
    ensures KeywordRules[i].canonical in ExtractKeywords(text) <==> Matches(text, KeywordRules[i].pattern)
  {
    KeywordLabelsDistinct();
    SelectLabelIff(KeywordRules, text, i);
  }

  /** "Backache" is a keyword exactly when "backache" occurs, whatever its case. */
  lemma BackacheKeywordIff(text: string)
    ensures "Backache" in ExtractKeywords(text) <==> ContainsCI(text, "backache")
  {
    KeywordIff(text, 10);
    assert KeywordRules[10].pattern[0] == "backache";
    assert Matches(text, KeywordRules[10].pattern) <==> ContainsCI(text, KeywordRules[10].pattern[0]);
  }
}
