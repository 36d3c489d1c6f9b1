/** `summarize_to_json`: the entity record plus a patient name
    (physician_notetaker_app.py:66-77).

    The name pattern has four alternatives, searched case-sensitively: three
    honorifics (Ms, Mrs, Mr) before " Jones", and the full name "Janet Jones".
    The pattern is a raw string, so the doubled backslash after each honorific
    reaches the regular-expression engine as an escaped backslash, and the dot
    after it matches any one character except a newline. So "Ms. Jones" as
    usually written is not recognised, while "Ms" + backslash + any character
    + " Jones" is. Whichever alternative matches, the reported name is the
    constant "Janet Jones".
 */
module Summary {
  import opened Text
  import opened Extraction

  datatype PatientName = JanetJones | NoName {
    function Text(): string {
      match this
      case JanetJones => "Janet Jones"
      case NoName => "Not specified"
    }
  }

  datatype Summary = Summary(
    patientName: PatientName,
    symptoms: seq<string>,
    diagnosis: Diagnosis,
    treatment: seq<string>,
    currentStatus: Status,
    prognosis: Prognosis)
  {
    /** The five fields shared with the entity record. */
    function Entities(): Entities {
      Extraction.Entities(symptoms, diagnosis, treatment, currentStatus, prognosis)
    }
  }

  /** `<honorific>\\. Jones` matches at index `i`: the honorific, a backslash,
      one character other than a newline, then " Jones". */
  predicate HonorificAt(text: string, honorific: string, i: int) {
    var n := |honorific|;
    0 <= i && i + n + 8 <= |text| &&
    text[i..i + n] == honorific &&
    text[i + n] == '\\' &&
    text[i + n + 1] != '\n' &&
    text[i + n + 2..i + n + 8] == " Jones"
  }

  predicate HonorificMatches(text: string, honorific: string) {
    exists i | 0 <= i <= |text| - |honorific| - 8 :: HonorificAt(text, honorific, i)
  }

  /** The case-sensitive name search of line 67, alternative by alternative.
      Every alternative ends in " Jones", so nothing matches without it. */
  predicate NameMatches(text: string)
    ensures NameMatches(text) ==> IsSubstring(" Jones", text)
  {
    JonesInEveryAlternative(text);
    HonorificMatches(text, "Ms") ||
    HonorificMatches(text, "Mrs") ||
    HonorificMatches(text, "Mr") ||
    IsSubstring("Janet Jones", text)
  }

  lemma JonesInEveryAlternative(text: string)
    ensures HonorificMatches(text, "Ms") || HonorificMatches(text, "Mrs") ||
            HonorificMatches(text, "Mr") || IsSubstring("Janet Jones", text)
            ==> IsSubstring(" Jones", text)
  {
    if IsSubstring("Janet Jones", text) {
      assert "Janet Jones" == "Janet" + " Jones" + "";
      SubstringOfInfix("Janet", " Jones", "", text);
    }
    forall h | h == "Ms" || h == "Mrs" || h == "Mr"
      ensures HonorificMatches(text, h) ==> IsSubstring(" Jones", text)
    {
      if HonorificMatches(text, h) {
        var i :| 0 <= i <= |text| - |h| - 8 && HonorificAt(text, h, i);
        assert OccursAt(" Jones", text, i + |h| + 2);
      }
    }
  }

  function SummarizeToJson(transcript: string): (s: Summary)
    ensures s.patientName == JanetJones <==> NameMatches(transcript)
  {
    var name := if NameMatches(transcript) then JanetJones else NoName;
    var e := ExtractEntities(transcript);
    Summary(name, e.symptoms, e.diagnosis, e.treatment, e.currentStatus, e.prognosis)
  }

  /** The summary carries the entity record unchanged, and names the patient
      "Janet Jones" exactly when the name pattern matches. */
  lemma SummaryCopiesEntities(transcript: string)
    ensures SummarizeToJson(transcript).Entities() == ExtractEntities(transcript)
    ensures SummarizeToJson(transcript).patientName.Text() == "Janet Jones" <==> NameMatches(transcript)
    ensures SummarizeToJson(transcript).patientName.Text() == "Not specified" <==> !NameMatches(transcript)
  {
  }

  /** In a transcript without backslashes only the full name "Janet Jones" is recognised. */
  lemma NameWithoutBackslash(transcript: string)
    requires forall i :: 0 <= i < |transcript| ==> transcript[i] != '\\'
    ensures SummarizeToJson(transcript).patientName == JanetJones <==> IsSubstring("Janet Jones", transcript)
  {
    forall h: string, i: int | 0 <= i && i + |h| < |transcript|
      ensures !HonorificAt(transcript, h, i)
    {
      assert transcript[i + |h|] != '\\';
    }
  }

  /** The honorifics as people write them, "Ms. Jones", "Mrs. Jones" and
      "Mr. Jones", are not recognised ... */
  lemma PlainHonorificNotRecognised(h: string)
    requires h == "Ms" || h == "Mrs" || h == "Mr"
    ensures SummarizeToJson(h + ". Jones").patientName == NoName
  {
    var t := h + ". Jones";
    forall i | 0 <= i < |t| ensures t[i] != '\\' {
      if i < |h| {
        assert t[i] == h[i];
      } else {
        assert t[i] == ". Jones"[i - |h|];
      }
    }
    NameWithoutBackslash(t);
  }

  /** ... while a backslash in their place is, and still yields "Janet Jones". */
  lemma BackslashHonorificRecognised()
    ensures SummarizeToJson("Mrs\\. Jones").patientName == JanetJones
  {
    assert HonorificAt("Mrs\\. Jones", "Mrs", 0);
  }
}
