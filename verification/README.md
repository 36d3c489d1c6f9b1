# Physician notetaker: rule-based extraction, in Dafny

This project models the text-extraction logic of the Physician Notetaker web
app. The app turns a doctor–patient transcript into structured data using
five pure functions:

- `extract_entities` runs ordered keyword rules and builds a record. The
  record holds Symptoms, Diagnosis, Treatment, Current_Status and Prognosis.
- `summarize_to_json` returns the same record plus a patient name.
- `extract_keywords` runs a second, overlapping rule list. It returns
  `sorted(set(...))` of the labels that fired.
- `analyze_patient_sentiment` checks three word lists in priority order. If
  none matches, it asks a pretrained classifier.
- `generate_soap_note` fills a four-section SOAP template from the entity
  record.

Every regular expression in these functions, except the patient-name
pattern (physician_notetaker_app.py:67, described below), is an alternation
of literals searched with the ignore-case flag. The model therefore writes
each such pattern as its list of literal alternatives (`Rules.Pattern`). A pattern matches when
some alternative occurs in the text after ASCII lower-casing
(`Text.ContainsCI`). Expanded this way:

- `follow[- ]?up` has three spellings: "follow-up", "follow up" and "followup".
- `backaches?` has two: "backache" and "backaches".
- `head (impact|hit my head)` has two: "head impact" and "head hit my head".

A rule is a pattern paired with the fixed label it appends. Running a rule
list in order and collecting the labels that fire is `Rules.Select`.

Files, one module each:

- `text.dfy` (`Text`): ASCII lower-casing, substring and case-insensitive search.
- `rules.dfy` (`Rules`): patterns, rules, `Select`, and general facts about `Select`.
- `sorted_sets.dfy` (`SortedSets`): Python's code-point string order, and `sorted(set(..))`.
- `comma_lists.dfy` (`CommaLists`): `", ".join` and its inverse `split(", ")`.
- `extraction.dfy` (`Extraction`): `extract_entities`.
- `summary.dfy` (`Summary`): `summarize_to_json`.
- `keywords.dfy` (`Keywords`): `extract_keywords`.
- `sentiment.dfy` (`Sentiment`): `analyze_patient_sentiment`. The classifier is a function parameter.
- `soap.dfy` (`Soap`): `generate_soap_note`.

Behaviour kept as the code has it:

- **Patient name.** The name pattern is searched case-sensitively, without the ignore-case
  flag. It is a raw string, so `\\.` means "a backslash, then any
  character except a newline". Plain "Ms. Jones" is therefore not recognised. In text without
  a backslash, only "Janet Jones" is. Whichever alternative matches, the name reported is
  "Janet Jones".
- **Overlapping rules.** These are not reconciled. Text containing "occasional backache"
  gets that label both as a symptom and as the current status.
- **Routine intent.** The intent text for the routine phrases is "Routine visit"
  (physician_notetaker_app.py:112).
- **SOAP note.** There is one SOAP function. No symptoms gives the fixed "Routine checkup"
  note (physician_notetaker_app.py:125-143), even when the transcript names a diagnosis
  or a treatment.

## Model

| member | source | states |
|---|---|---|
| Rules.MatchesIff | physician_notetaker_app.py:29 | A pattern matches iff one of its literal alternatives agrees, character by character and up to ASCII case, with the text at some position. This is how an ignore-case search of a literal alternation behaves. |
| Extraction.ExtractEntities | physician_notetaker_app.py:27-64 | Each list holds at most one entry per rule of its table, and every entry is a label of that table. The per-label conditions are in the two lemmas below. |
| Extraction.SymptomsFollowRules | physician_notetaker_app.py:28-40 | Symptoms is a subsequence of the six labels in rule order and has no duplicates. Each label is present iff one of its pattern's literals occurs, ignoring case. |
| Extraction.TreatmentFollowsRules | physician_notetaker_app.py:44-52 | Treatment is a duplicate-free subsequence of its four labels in rule order. Each label is present iff its pattern occurs. This includes the three spellings of follow-up. |
| Extraction.BackachePatternIsBackache | physician_notetaker_app.py:39 | The symptom pattern for backache (both optional-s alternatives) matches exactly the texts that contain "backache" in any case. |
| Extraction.BackacheSymptom | physician_notetaker_app.py:39-40 | "Occasional backache" is a symptom iff "backache" occurs. |
| Extraction.DiagnosisIff | physician_notetaker_app.py:42 | Diagnosis is "Whiplash injury" iff "whiplash injury" occurs; otherwise it is "Not specified". |
| Extraction.PrognosisIff | physician_notetaker_app.py:54 | Prognosis is "Full recovery expected within six months" iff "full recovery" occurs; otherwise it is "Not specified". |
| Extraction.OccasionalBackachePatternIsPhrase | physician_notetaker_app.py:56 | The status pattern for occasional backache matches iff "occasional backache" occurs. |
| Extraction.StatusPriority | physician_notetaker_app.py:56 | The status is "Occasional backache" iff that phrase occurs, even if "doing better" also occurs. Otherwise it is "Doing better" iff that phrase occurs. Otherwise it is "Not specified". All three are stated in both directions. |
| Extraction.BackacheOverlap | physician_notetaker_app.py:39-56 | If "occasional backache" occurs, the label is in Symptoms and is also the current status. Nothing reconciles the two. |
| Extraction.EmptyTranscript | physician_notetaker_app.py:27-64 | The empty transcript gives empty Symptoms and Treatment lists and "Not specified" for the other three fields. |
| Summary.NameMatches | physician_notetaker_app.py:67 | The case-sensitive name search. Every alternative ends in " Jones", so no text without " Jones" matches. |
| Summary.SummarizeToJson | physician_notetaker_app.py:66-68 | The patient name is "Janet Jones" iff the case-sensitive name pattern matches. |
| Summary.SummaryCopiesEntities | physician_notetaker_app.py:66-77 | The summary's five record fields equal `extract_entities` on the same transcript. The name reads "Janet Jones" iff the pattern matches, and "Not specified" otherwise. |
| Summary.NameWithoutBackslash | physician_notetaker_app.py:67-68 | In a transcript with no backslash, the name is recognised iff "Janet Jones" occurs, case-sensitively. |
| Summary.PlainHonorificNotRecognised | physician_notetaker_app.py:67-68 | "Ms. Jones", "Mrs. Jones" and "Mr. Jones", written normally, give "Not specified". |
| Summary.BackslashHonorificRecognised | physician_notetaker_app.py:67-68 | `Mrs\. Jones`, with a real backslash, is recognised and reported as "Janet Jones". |
| Keywords.ExtractKeywords | physician_notetaker_app.py:79-103 | The result is strictly ascending in code-point order, so it has no duplicates. Every element is one of the eleven labels. |
| Keywords.KeywordIff | physician_notetaker_app.py:80-103 | Each of the eleven labels is in the result iff its pattern occurs. |
| Keywords.KeywordsAreAlphabeticalSelection | physician_notetaker_app.py:79-103 | Independent reference: the result equals running the same rules listed in alphabetical label order. So sorting only reorders the hits. |
| Keywords.BackacheKeywordIff | physician_notetaker_app.py:101-102 | "Backache" is a keyword iff "backache" occurs in any case. |
| SortedSets.SortDedup | physician_notetaker_app.py:103 | `sorted(set(xs))` is strictly ascending and has exactly the elements of `xs`. |
| SortedSets.SortedUnique | physician_notetaker_app.py:103 | Two strictly ascending lists with the same elements are equal. So the sorted, deduplicated list is determined by its set. |
| Sentiment.AnalyzePatientSentiment | physician_notetaker_app.py:105-121 | The intent always agrees with the sentiment. The sentiment is Anxious iff an anxiety word occurs, or no word list matches and the classifier says NEGATIVE. It is Reassured iff a gratitude word occurs without an anxiety word, or the fallback says POSITIVE. The intent is "Routine visit" iff only a routine phrase matched. |
| Sentiment.FromLabel | physician_notetaker_app.py:115-121 | NEGATIVE maps to Anxious with "Seeking reassurance", POSITIVE maps to Reassured with "Expressing gratitude", and any other label maps to Neutral with "Reporting symptoms". Sentiments are stated in both directions, and the intent always goes with its sentiment. |
| Sentiment.AnxietyFirst | physician_notetaker_app.py:107-108 | An anxiety word gives Anxious with "Seeking reassurance", whatever else the text contains. |
| Sentiment.GratitudeBeforeRoutine | physician_notetaker_app.py:109-112 | With no anxiety word, a gratitude word gives Reassured even if a routine phrase is also present. |
| Sentiment.ClassifierIgnoredWhenVocabularyDecides | physician_notetaker_app.py:106-112 | When some word list matches, any two classifiers give the same result. The classifier is not consulted. |
| Sentiment.ClassifierDecidesOtherwise | physician_notetaker_app.py:113-121 | When no word list matches, the result is determined by the classifier's label alone. |
| Sentiment.WorriedPatient | physician_notetaker_app.py:106-108 | Any text containing "worried", such as "I'm really worried about this pain", is Anxious with "Seeking reassurance", for every classifier and whatever surrounds the word. |
| Soap.NoteFromEntities | physician_notetaker_app.py:125-162 | The note is the fixed routine-checkup template iff Symptoms is empty. Severity is "Mild" iff Symptoms is non-empty. |
| Soap.GenerateSoapNote | physician_notetaker_app.py:123-143 | A transcript with no extracted symptom gives exactly the "Routine checkup" / "General wellness" note, and no other transcript does. |
| Soap.ChiefComplaintListsSymptoms | physician_notetaker_app.py:145-157 | With symptoms, splitting the chief complaint at ", " gives back the symptom list. The history is the fixed prefix plus that complaint. The assessment repeats the extracted diagnosis. |
| Soap.PlanListsTreatment | physician_notetaker_app.py:158-159 | With symptoms, the plan is "Supportive care recommended." iff no treatment was extracted. Otherwise splitting the plan gives back the treatment list. |
| Soap.SupportiveCareIsNoTreatment | physician_notetaker_app.py:159 | No non-empty treatment list joins to the supportive-care sentence, so the two plan texts cannot be confused. |
| Soap.NoSymptomMeansRoutineNote | physician_notetaker_app.py:124-143 | When no symptom pattern matches, the note is the routine template, with diagnosis "General wellness" and "No treatment necessary.", whatever diagnosis or treatment the transcript names. |
| Soap.WhiplashScenario | physician_notetaker_app.py:123-162 | Take a transcript that mentions neck pain, whiplash injury, physiotherapy and painkillers. Its note assesses "Whiplash injury", and its plan contains "10 physiotherapy sessions" and "Painkillers". |
| CommaLists.Join | physician_notetaker_app.py:147-148 | `", ".join` gives "" for no parts. The result has no comma iff there is at most one part and that part has none. |
| CommaLists.SplitJoin | physician_notetaker_app.py:147 | `", ".join` is undone by `split(", ")` for any non-empty list of comma-free parts. |

## Left out

- Streamlit page setup, widgets, buttons and rendering (physician_notetaker_app.py:1-9, 164-193) are presentation and I/O.
- Loading spaCy, including the subprocess download and its caching (physician_notetaker_app.py:11-18, 24), is foreign I/O. No rule uses the loaded model.
- The transformers sentiment pipeline (physician_notetaker_app.py:20-22, 25, 114) is an opaque machine-learning model. It is modelled as an arbitrary function from text to the label it reports. Its list-of-dicts result shape is dropped.
- No general regular-expression engine is modelled. Each pattern is written as its literal alternatives. Case-insensitivity is ASCII only: Python's `re.I` and `str.lower()` also fold non-ASCII letters (for example the Kelvin sign matches "k"), and the model does not.
- Purity and idempotence need no statement. Every operation is a Dafny function, so equal inputs give equal outputs.
