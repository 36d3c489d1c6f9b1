/** `generate_soap_note`: the entity record poured into a four-section
    template (physician_notetaker_app.py:123-162).

    With no symptoms the note is a fixed routine-checkup template. Otherwise
    the chief complaint lists the symptoms, the assessment repeats the
    extracted diagnosis, and the plan lists the treatments or falls back to
    supportive care.
 */
module Soap {
  import opened Text
  import opened Rules
  import opened Extraction
  import opened CommaLists

  datatype Subjective = Subjective(chiefComplaint: string, historyOfPresentIllness: string)
  datatype Objective = Objective(physicalExam: string, observations: string)
  datatype Assessment = Assessment(diagnosis: string, severity: string)
  datatype Plan = Plan(treatment: string, followUp: string)

  datatype SoapNote = SoapNote(
    subjective: Subjective,
    objective: Objective,
    assessment: Assessment,
    plan: Plan)

  const HistoryPrefix: string := "Patient reports issues including: "
  const SupportiveCare: string := "Supportive care recommended."

  /** The note produced when no symptom was extracted. */
  const RoutineCheckupNote: SoapNote := SoapNote(
    Subjective("Routine checkup", "No major complaints reported by the patient."),
    Objective("Normal vital signs, no abnormalities noted.", "Patient appears in good health."),
    Assessment("General wellness", "None"),
    Plan("No treatment necessary.", "Routine follow-up advised."))

  function NoteFromEntities(e: Entities): (note: SoapNote)
    ensures note == RoutineCheckupNote <==> e.symptoms == []
    ensures note.assessment.severity == "Mild" <==> e.symptoms != []
  {
    if e.symptoms == [] then RoutineCheckupNote
    else
      SoapNote(
        Subjective(Join(e.symptoms), HistoryPrefix + Join(e.symptoms)),
        Objective("Full range of motion in affected areas, no significant tenderness.",
                  "Patient appears stable with mild discomfort."),
        Assessment(e.diagnosis.Text(), "Mild"),
        Plan(if e.treatment != [] then Join(e.treatment) else SupportiveCare,
             "Patient to follow up if symptoms persist."))
  }

  function GenerateSoapNote(transcript: string): (note: SoapNote)
    ensures note == RoutineCheckupNote <==> ExtractEntities(transcript).symptoms == []
  {
    NoteFromEntities(ExtractEntities(transcript))
  }

  /** None of the ten labels contains a comma. */
  lemma LabelTextsCommaFree()
    ensures CommaFree("Neck pain") && CommaFree("Back pain") && CommaFree("Head impact")
    ensures CommaFree("Trouble sleeping") && CommaFree("Discomfort") && CommaFree("Occasional backache")
    ensures CommaFree("10 physiotherapy sessions") && CommaFree("Painkillers")
    ensures CommaFree("Advice") && CommaFree("Follow-up")
  {
  }

  lemma SymptomLabelsCommaFree()
    ensures forall i :: 0 <= i < |SymptomRules| ==> CommaFree(SymptomRules[i].canonical)
  {
    LabelTextsCommaFree();
  }

  lemma TreatmentLabelsCommaFree()
    ensures forall i :: 0 <= i < |TreatmentRules| ==> CommaFree(TreatmentRules[i].canonical)
    ensures forall i :: 0 <= i < |TreatmentRules| ==> TreatmentRules[i].canonical != SupportiveCare
  {
    LabelTextsCommaFree();
  }

  /** Every label the extraction rules can emit is free of commas. */
  lemma ExtractedLabelsCommaFree(transcript: string)
    ensures forall i :: 0 <= i < |ExtractEntities(transcript).symptoms| ==>
              CommaFree(ExtractEntities(transcript).symptoms[i])
    ensures forall i :: 0 <= i < |ExtractEntities(transcript).treatment| ==>
              CommaFree(ExtractEntities(transcript).treatment[i])
    ensures SupportiveCare !in ExtractEntities(transcript).treatment
  {
    var symptoms := Select(SymptomRules, transcript);
    var treatment := Select(TreatmentRules, transcript);
    assert ExtractEntities(transcript).symptoms == symptoms;
    assert ExtractEntities(transcript).treatment == treatment;
    SymptomLabelsCommaFree();
    TreatmentLabelsCommaFree();
    forall i | 0 <= i < |symptoms| ensures CommaFree(symptoms[i]) {
      SelectMembership(SymptomRules, transcript, symptoms[i]);
    }
    forall i | 0 <= i < |treatment| ensures CommaFree(treatment[i]) {
      SelectMembership(TreatmentRules, transcript, treatment[i]);
    }
    SelectMembership(TreatmentRules, transcript, SupportiveCare);
  }

  /** With symptoms, the subjective section lists them, and the list can be
      read back from the note by splitting at ", ". */
  lemma ChiefComplaintListsSymptoms(transcript: string)
    requires ExtractEntities(transcript).symptoms != []
    ensures var e, note := ExtractEntities(transcript), GenerateSoapNote(transcript);
      && Split(note.subjective.chiefComplaint) == e.symptoms
      && note.subjective.historyOfPresentIllness == HistoryPrefix + note.subjective.chiefComplaint
      && note.assessment.diagnosis == e.diagnosis.Text()
  {
    ExtractedLabelsCommaFree(transcript);
    SplitJoin(ExtractEntities(transcript).symptoms);
  }

  /** With symptoms, the plan lists the treatments (readable back by
      splitting), or recommends supportive care exactly when there are none. */
  lemma PlanListsTreatment(transcript: string)
    requires ExtractEntities(transcript).symptoms != []
    ensures var e, note := ExtractEntities(transcript), GenerateSoapNote(transcript);
      && (e.treatment == [] <==> note.plan.treatment == SupportiveCare)
      && (e.treatment != [] ==> Split(note.plan.treatment) == e.treatment)
  {
    var e := ExtractEntities(transcript);
    if e.treatment != [] {
      ExtractedLabelsCommaFree(transcript);
      SplitJoin(e.treatment);
      SupportiveCareIsNoTreatment(transcript);
    }
  }

  /** The supportive-care sentence is not the join of any treatment list. */
  lemma SupportiveCareIsNoTreatment(transcript: string)
    requires ExtractEntities(transcript).treatment != []
    ensures Join(ExtractEntities(transcript).treatment) != SupportiveCare
  {
    var e := ExtractEntities(transcript);
    ExtractedLabelsCommaFree(transcript);
    SplitJoin(e.treatment);
    SplitCommaFree(SupportiveCare);
  }

  /** Without an extracted symptom the routine template is used, even when
      the transcript names a diagnosis or a treatment: the whiplash injury,
      physiotherapy and painkillers are then all left out of the note. */
  lemma NoSymptomMeansRoutineNote(transcript: string)
    requires forall i :: 0 <= i < |SymptomRules| ==> !Matches(transcript, SymptomRules[i].pattern)
    ensures GenerateSoapNote(transcript) == RoutineCheckupNote
    ensures GenerateSoapNote(transcript).assessment.diagnosis == "General wellness"
    ensures GenerateSoapNote(transcript).plan.treatment == "No treatment necessary."
  {
    SelectNone(SymptomRules, transcript);
  }

  /** The scenario of a whiplash transcript: the assessment names the
      injury and the plan mentions both physiotherapy and painkillers. The
      neck-pain requirement is what makes the note non-routine; see
      `NoSymptomMeansRoutineNote` for the same transcript without a symptom. */
  lemma WhiplashScenario(transcript: string)
    requires ContainsCI(transcript, "neck pain")
    requires ContainsCI(transcript, "whiplash injury")
    requires ContainsCI(transcript, "physiotherapy")
    requires ContainsCI(transcript, "painkillers")
    ensures GenerateSoapNote(transcript).assessment.diagnosis == "Whiplash injury"
    ensures IsSubstring("10 physiotherapy sessions", GenerateSoapNote(transcript).plan.treatment)
    ensures IsSubstring("Painkillers", GenerateSoapNote(transcript).plan.treatment)
  {
    var e := ExtractEntities(transcript);
    SymptomsFollowRules(transcript);
    MatchesByAlternative(transcript, SymptomRules[0].pattern, 0);
    assert e.symptoms != [];
    DiagnosisIff(transcript);
    TreatmentFollowsRules(transcript);
    MatchesByAlternative(transcript, TreatmentRules[0].pattern, 2);
    MatchesByAlternative(transcript, TreatmentRules[1].pattern, 0);
    var j0 :| 0 <= j0 < |e.treatment| && e.treatment[j0] == "10 physiotherapy sessions";
    var j1 :| 0 <= j1 < |e.treatment| && e.treatment[j1] == "Painkillers";
    JoinContainsParts(e.treatment, j0);
    JoinContainsParts(e.treatment, j1);
  }
}
