/** `analyze_patient_sentiment`: a three-step vocabulary cascade with a
    pretrained classifier as the last resort (physician_notetaker_app.py:105-121).

    The classifier is not modelled; it is the parameter `classify`, an
    arbitrary function from the dialogue to the label it reports.
 */
module Sentiment {
  import opened Text

  datatype Sentiment = Anxious | Reassured | Neutral {
    function Text(): string {
      match this
      case Anxious => "Anxious"
      case Reassured => "Reassured"
      case Neutral => "Neutral"
    }
  }

  datatype Intent = SeekingReassurance | ExpressingGratitude | RoutineVisit | ReportingSymptoms {
    function Text(): string {
      match this
      case SeekingReassurance => "Seeking reassurance"
      case ExpressingGratitude => "Expressing gratitude"
      case RoutineVisit => "Routine visit"
      case ReportingSymptoms => "Reporting symptoms"
    }
  }

  datatype Mood = Mood(sentiment: Sentiment, intent: Intent)

  /** The fallback classifier: the label it reports for a text. */
  type Classifier = string -> string

  const AnxietyWords: seq<string> := ["worried", "concerned", "anxious", "nervous"]
  const GratitudeWords: seq<string> := ["relief", "thankful", "grateful", "appreciate"]
  const RoutinePhrases: seq<string> := ["no complaints", "nothing to report"]

  /** Some word of the list occurs, as a plain substring, in the text after it
      has been lower-cased. */
  predicate MentionsAny(lowered: string, words: seq<string>) {
    exists k | 0 <= k < |words| :: IsSubstring(words[k], lowered)
  }

  predicate Anxiety(text: string) { MentionsAny(Lower(text), AnxietyWords) }
  predicate Gratitude(text: string) { MentionsAny(Lower(text), GratitudeWords) }
  predicate Routine(text: string) { MentionsAny(Lower(text), RoutinePhrases) }

  /** Some vocabulary decides the result without the classifier. */
  predicate VocabularyDecides(text: string) {
    Anxiety(text) || Gratitude(text) || Routine(text)
  }

  /** The intent always matches the sentiment it came with. */
  predicate Coherent(m: Mood) {
    match m.sentiment
    case Anxious => m.intent == SeekingReassurance
    case Reassured => m.intent == ExpressingGratitude
    case Neutral => m.intent == RoutineVisit || m.intent == ReportingSymptoms
  }

  /** How a classifier label is read. */
  function FromLabel(tag: string): (m: Mood)
    ensures Coherent(m)
    ensures m.sentiment == Anxious <==> tag == "NEGATIVE"
    ensures m.sentiment == Reassured <==> tag == "POSITIVE"
    ensures m.intent == ReportingSymptoms <==> tag != "NEGATIVE" && tag != "POSITIVE"
  {
    if tag == "NEGATIVE" then Mood(Anxious, SeekingReassurance)
    else if tag == "POSITIVE" then Mood(Reassured, ExpressingGratitude)
    else Mood(Neutral, ReportingSymptoms)
  }

  function AnalyzePatientSentiment(text: string, classify: Classifier): (m: Mood)
    ensures Coherent(m)
    ensures m.intent == RoutineVisit <==> !Anxiety(text) && !Gratitude(text) && Routine(text)
    ensures m.sentiment == Anxious <==>
            Anxiety(text) || (!VocabularyDecides(text) && classify(text) == "NEGATIVE")
    ensures m.sentiment == Reassured <==>
            (!Anxiety(text) && Gratitude(text)) ||
            (!VocabularyDecides(text) && classify(text) == "POSITIVE")
  {
    var lowered := Lower(text);
    if MentionsAny(lowered, AnxietyWords) then Mood(Anxious, SeekingReassurance)
    else if MentionsAny(lowered, GratitudeWords) then Mood(Reassured, ExpressingGratitude)
    else if MentionsAny(lowered, RoutinePhrases) then Mood(Neutral, RoutineVisit)
    else FromLabel(classify(text))
  }

  /** An anxiety word decides the result, whatever else the text says. */
  lemma AnxietyFirst(text: string, classify: Classifier)
    requires Anxiety(text)
    ensures AnalyzePatientSentiment(text, classify) == Mood(Anxious, SeekingReassurance)
  {
  }

  /** Gratitude is checked before the routine phrases. */
  lemma GratitudeBeforeRoutine(text: string, classify: Classifier)
    requires !Anxiety(text) && Gratitude(text)
    ensures AnalyzePatientSentiment(text, classify) == Mood(Reassured, ExpressingGratitude)
  {
  }

  /** The classifier is consulted only when no vocabulary matched: otherwise two
      different classifiers give the same answer ... */
  lemma ClassifierIgnoredWhenVocabularyDecides(text: string, c1: Classifier, c2: Classifier)
    requires VocabularyDecides(text)
    ensures AnalyzePatientSentiment(text, c1) == AnalyzePatientSentiment(text, c2)
    ensures AnalyzePatientSentiment(text, c1).intent != ReportingSymptoms
  {
  }

  /** ... and when none matched, the classifier's label alone decides. */
  lemma ClassifierDecidesOtherwise(text: string, classify: Classifier)
    requires !VocabularyDecides(text)
    ensures AnalyzePatientSentiment(text, classify) == FromLabel(classify(text))
    ensures AnalyzePatientSentiment(text, classify).intent != RoutineVisit
  {
  }

  /** A patient who says they are worried ("I'm really worried about this
      pain") is anxious before any classifier is asked, whatever the
      surrounding words. */
  lemma WorriedPatient(before: string, after: string, classify: Classifier)
    ensures AnalyzePatientSentiment(before + "worried" + after, classify).sentiment.Text() == "Anxious"
    ensures AnalyzePatientSentiment(before + "worried" + after, classify).intent.Text() == "Seeking reassurance"
  {
    var s := before + "worried" + after;
    assert s[|before|..|before| + 7] == "worried";
    LowerCaseOccurrence(s, "worried", |before|);
    LowerOfNoUpper("worried");
    assert IsSubstring(AnxietyWords[0], Lower(s));
    AnxietyFirst(s, classify);
  }
}
