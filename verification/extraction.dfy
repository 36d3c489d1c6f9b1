/** `extract_entities`: the rule-based clinical record of a transcript.

    Symptoms and treatments are the canonical labels of the rules that fire,
    in rule order; diagnosis, current status and prognosis are fixed
    enumerations chosen by single patterns. Every test is a case-insensitive
    literal search (physician_notetaker_app.py:27-64).
 */
module Extraction {
  import opened Text
  import opened Rules

  datatype Diagnosis = WhiplashInjury | NoDiagnosis {
    function Text(): string {
      match this
      case WhiplashInjury => "Whiplash injury"
      case NoDiagnosis => "Not specified"
    }
  }

  datatype Status = OccasionalBackache | DoingBetter | NoStatus {
    function Text(): string {
      match this
      case OccasionalBackache => "Occasional backache"
      case DoingBetter => "Doing better"
      case NoStatus => "Not specified"
    }
  }

  datatype Prognosis = FullRecovery | NoPrognosis {
    function Text(): string {
      match this
      case FullRecovery => "Full recovery expected within six months"
      case NoPrognosis => "Not specified"
    }
  }

  /** The record returned for one transcript. */
  datatype Entities = Entities(
    symptoms: seq<string>,
    diagnosis: Diagnosis,
    treatment: seq<string>,
    currentStatus: Status,
    prognosis: Prognosis)

  /** `occasional backaches?|backaches?` spelled out as literals. */
  const BackachePattern: Pattern :=
    ["occasional backache", "occasional backaches", "backache", "backaches"]

  /** The six symptom rules, in the order the source tests them. */
  const SymptomRules: seq<Rule> := [
    Rule(["neck pain", "pain in my neck"], "Neck pain"),
    Rule(["back pain", "pain in my back"], "Back pain"),
    Rule(["head impact", "head hit my head"], "Head impact"),
    Rule(["trouble sleeping"], "Trouble sleeping"),
    Rule(["discomfort"], "Discomfort"),
    Rule(BackachePattern, "Occasional backache")
  ]

  /** The four treatment rules; `follow[- ]?up` has three spellings. */
  const TreatmentRules: seq<Rule> := [
    Rule(["ten sessions", "10 sessions", "physiotherapy"], "10 physiotherapy sessions"),
    Rule(["painkillers"], "Painkillers"),
    Rule(["advice"], "Advice"),
    Rule(["follow-up", "follow up", "followup"], "Follow-up")
  ]

  const WhiplashPattern: Pattern := ["whiplash injury"]
  const FullRecoveryPattern: Pattern := ["full recovery"]
  /** `occasional backaches?|occasional backache` spelled out as literals. */
  const OccasionalBackachePattern: Pattern :=
    ["occasional backache", "occasional backaches", "occasional backache"]
  const DoingBetterPattern: Pattern := ["doing better"]

  /** Every list entry is a label of its own rule table, at most one per rule. */
  function ExtractEntities(text: string): (e: Entities)
    ensures |e.symptoms| <= |SymptomRules| && |e.treatment| <= |TreatmentRules|
    ensures forall x :: x in e.symptoms ==> x in Labels(SymptomRules)
    ensures forall x :: x in e.treatment ==> x in Labels(TreatmentRules)
  {
    SelectSubsequence(SymptomRules, text);
    SubsequenceMembers(Select(SymptomRules, text), Labels(SymptomRules));
    SelectSubsequence(TreatmentRules, text);
    SubsequenceMembers(Select(TreatmentRules, text), Labels(TreatmentRules));
    var diagnosis := if Matches(text, WhiplashPattern) then WhiplashInjury else NoDiagnosis;
    var prognosis := if Matches(text, FullRecoveryPattern) then FullRecovery else NoPrognosis;
    var status :=
      if Matches(text, OccasionalBackachePattern) then OccasionalBackache
      else if Matches(text, DoingBetterPattern) then DoingBetter
      else NoStatus;
    Entities(Select(SymptomRules, text), diagnosis, Select(TreatmentRules, text), status, prognosis)
  }

  /** The symptom list is a duplicate-free subsequence of the six labels, in
      rule order, and holds a label exactly when that label's pattern occurs. */
  lemma SymptomsFollowRules(text: string)
    ensures Subsequence(ExtractEntities(text).symptoms, Labels(SymptomRules))
    ensures Distinct(ExtractEntities(text).symptoms)
    ensures forall i :: 0 <= i < |SymptomRules| ==>
              (SymptomRules[i].canonical in ExtractEntities(text).symptoms <==>
               Matches(text, SymptomRules[i].pattern))
  {
    SelectSubsequence(SymptomRules, text);
    SelectDistinct(SymptomRules, text);
    forall i | 0 <= i < |SymptomRules|
      ensures SymptomRules[i].canonical in ExtractEntities(text).symptoms <==>
              Matches(text, SymptomRules[i].pattern)
    {
      SelectLabelIff(SymptomRules, text, i);
    }
  }

  /** The same three facts for the treatment list and its four rules. */
  lemma TreatmentFollowsRules(text: string)
    ensures Subsequence(ExtractEntities(text).treatment, Labels(TreatmentRules))
    ensures Distinct(ExtractEntities(text).treatment)
    ensures forall i :: 0 <= i < |TreatmentRules| ==>
              (TreatmentRules[i].canonical in ExtractEntities(text).treatment <==>
               Matches(text, TreatmentRules[i].pattern))
  {
    SelectSubsequence(TreatmentRules, text);
    SelectDistinct(TreatmentRules, text);
    forall i | 0 <= i < |TreatmentRules|
      ensures TreatmentRules[i].canonical in ExtractEntities(text).treatment <==>
              Matches(text, TreatmentRules[i].pattern)
    {
      SelectLabelIff(TreatmentRules, text, i);
    }
  }

  /** The backache pattern is, in effect, a search for "backache". */
  lemma BackachePatternIsBackache(text: string)
    ensures Matches(text, BackachePattern) <==> ContainsCI(text, "backache")
  {
    if Matches(text, BackachePattern) {
      var k :| 0 <= k < |BackachePattern| && ContainsCI(text, BackachePattern[k]);
      if k == 0 {
        assert BackachePattern[k] == "occasional " + "backache" + "";
        ContainsInfix(text, "occasional ", "backache", "");
      } else if k == 1 {
        assert BackachePattern[k] == "occasional " + "backache" + "s";
        ContainsInfix(text, "occasional ", "backache", "s");
      } else if k == 3 {
        assert BackachePattern[k] == "" + "backache" + "s";
        ContainsInfix(text, "", "backache", "s");
      }
    }
    if ContainsCI(text, "backache") {
      assert ContainsCI(text, BackachePattern[2]);
    }
  }

  /** The status pattern is, in effect, a search for "occasional backache". */
  lemma OccasionalBackachePatternIsPhrase(text: string)
    ensures Matches(text, OccasionalBackachePattern) <==> ContainsCI(text, "occasional backache")
  {
    if Matches(text, OccasionalBackachePattern) {
      var k :| 0 <= k < |OccasionalBackachePattern| && ContainsCI(text, OccasionalBackachePattern[k]);
      if k == 1 {
        assert OccasionalBackachePattern[k] == "" + "occasional backache" + "s";
        ContainsInfix(text, "", "occasional backache", "s");
      }
    }
    if ContainsCI(text, "occasional backache") {
      assert ContainsCI(text, OccasionalBackachePattern[0]);
    }
  }

  /** "Occasional backache" is a symptom exactly when "backache" occurs. */
  lemma BackacheSymptom(text: string)
    ensures "Occasional backache" in ExtractEntities(text).symptoms <==> ContainsCI(text, "backache")
  {
    SymptomsFollowRules(text);
    BackachePatternIsBackache(text);
    assert SymptomRules[5].canonical == "Occasional backache";
  }

  /** The diagnosis is the whiplash injury exactly when that phrase occurs. */
  lemma DiagnosisIff(text: string)
    ensures ExtractEntities(text).diagnosis == WhiplashInjury <==> ContainsCI(text, "whiplash injury")
    ensures ExtractEntities(text).diagnosis.Text() == "Whiplash injury" <==> ContainsCI(text, "whiplash injury")
    ensures ExtractEntities(text).diagnosis.Text() == "Not specified" <==> !ContainsCI(text, "whiplash injury")
  {
    assert Matches(text, WhiplashPattern) <==> ContainsCI(text, WhiplashPattern[0]);
  }

  /** Full recovery is the prognosis exactly when "full recovery" occurs. */
  lemma PrognosisIff(text: string)
    ensures ExtractEntities(text).prognosis == FullRecovery <==> ContainsCI(text, "full recovery")
    ensures ExtractEntities(text).prognosis.Text() == "Full recovery expected within six months"
            <==> ContainsCI(text, "full recovery")
    ensures ExtractEntities(text).prognosis.Text() == "Not specified" <==> !ContainsCI(text, "full recovery")
  {
    assert Matches(text, FullRecoveryPattern) <==> ContainsCI(text, FullRecoveryPattern[0]);
  }

  /** Current status: the backache phrase wins over "doing better", which wins
      over the default. */
  lemma StatusPriority(text: string)
    ensures ExtractEntities(text).currentStatus == OccasionalBackache <==>
            ContainsCI(text, "occasional backache")
    ensures ExtractEntities(text).currentStatus == DoingBetter <==>
            !ContainsCI(text, "occasional backache") && ContainsCI(text, "doing better")
    ensures ExtractEntities(text).currentStatus == NoStatus <==>
            !ContainsCI(text, "occasional backache") && !ContainsCI(text, "doing better")
  {
    OccasionalBackachePatternIsPhrase(text);
    assert Matches(text, DoingBetterPattern) <==> ContainsCI(text, DoingBetterPattern[0]);
  }

  /** Overlapping rules are not reconciled: the backache phrase is reported both
      as a symptom and as the current status. */
  lemma BackacheOverlap(text: string)
    requires ContainsCI(text, "occasional backache")
    ensures "Occasional backache" in ExtractEntities(text).symptoms
    ensures ExtractEntities(text).currentStatus == OccasionalBackache
    ensures ExtractEntities(text).currentStatus.Text() == "Occasional backache"
  {
    assert "occasional backache" == "occasional " + "backache" + "";
    ContainsInfix(text, "occasional ", "backache", "");
    BackacheSymptom(text);
    StatusPriority(text);
  }

  /** The empty transcript yields empty lists and "Not specified" everywhere. */
  lemma EmptyTranscript()
    ensures ExtractEntities("") == Entities([], NoDiagnosis, [], NoStatus, NoPrognosis)
  {
    forall i | 0 <= i < |SymptomRules| ensures !Matches("", SymptomRules[i].pattern) {
      EmptyMatchesNothing(SymptomRules[i].pattern);
    }
    forall i | 0 <= i < |TreatmentRules| ensures !Matches("", TreatmentRules[i].pattern) {
      EmptyMatchesNothing(TreatmentRules[i].pattern);
    }
    SelectNone(SymptomRules, "");
    SelectNone(TreatmentRules, "");
    EmptyMatchesNothing(WhiplashPattern);
    EmptyMatchesNothing(FullRecoveryPattern);
    EmptyMatchesNothing(OccasionalBackachePattern);
    EmptyMatchesNothing(DoingBetterPattern);
  }
}
