// Symptom triage of the emergency assistant: an ordered, first-match-wins
// keyword classifier over the lower-cased symptom description.

module SymptomTriage {

  /** Severity of a triaged description; `Unknown` is the assistant's state
      before any triage has run. */
  datatype Severity = Unknown | Critical | Moderate

  /** The `(summary, severity)` pair returned by the triage. */
  datatype Assessment = Assessment(summary: string, severity: Severity)

  const ChestPainSummary: string := "Severe chest pain, arm numbness"
  const BreathingSummary: string := "Difficulty breathing"

  /** Lower-casing of one character (ASCII letters only). */
  function LowerChar(c: char): (r: char)
    ensures 'A' <= c <= 'Z' ==> 'a' <= r <= 'z' && r as int - c as int == 32
    ensures !('A' <= c <= 'Z') ==> r == c
  {
    if 'A' <= c <= 'Z' then (c as int + 32) as char else c
  }

  /** Lower-casing of a string, character by character. */
  function Lower(s: string): (r: string)
    ensures |r| == |s|
    ensures forall i :: 0 <= i < |s| ==> r[i] == LowerChar(s[i])
  {
    seq(|s|, i requires 0 <= i < |s| => LowerChar(s[i]))
  }

  /** Python's `pattern in text` for strings: `pattern` occurs as a contiguous
      piece of `text` (the empty pattern occurs in every text). */
  predicate Contains(text: string, pattern: string)
    ensures Contains(text, pattern) ==> |pattern| <= |text|
    ensures pattern == [] ==> Contains(text, pattern)
    ensures text == pattern ==> Contains(text, pattern)
  {
    assert pattern == [] ==> OccursAt(text, pattern, 0);
    assert text == pattern ==> OccursAt(text, pattern, 0);
    exists i | 0 <= i <= |text| - |pattern| :: OccursAt(text, pattern, i)
  }

  /** `pattern` occurs in `text` starting at index `i`. */
  predicate OccursAt(text: string, pattern: string, i: int)
  {
    0 <= i <= |text| - |pattern| && text[i..i + |pattern|] == pattern
  }

  /** First rule: chest pain together with the arm or the left side. */
  predicate ChestPainRule(text: string)
    ensures ChestPainRule(text) ==> |text| >= |"chest pain"|
  {
    Contains(text, "chest pain") && (Contains(text, "arm") || Contains(text, "left"))
  }

  /** Second rule: difficulty breathing. */
  predicate BreathingRule(text: string)
    ensures BreathingRule(text) ==> |text| >= |"difficulty breathing"|
  {
    Contains(text, "difficulty breathing")
  }

  /** The triage of a free-text symptom description. */
  function AnalyzeSymptoms(description: string): (r: Assessment)
    ensures r.severity == Critical || r.severity == Moderate
    ensures r.severity == Moderate ==> r.summary == Lower(description)
  {
    var text := Lower(description);
    if ChestPainRule(text) then Assessment(ChestPainSummary, Critical)
    else if BreathingRule(text) then Assessment(BreathingSummary, Critical)
    else Assessment(text, Moderate)
  }

  /** The three rules, in their order: the chest-pain rule wins over the
      breathing rule, and the default keeps the lower-cased description. */
  lemma TriageRules(description: string)
    ensures ChestPainRule(Lower(description)) ==>
              AnalyzeSymptoms(description) == Assessment(ChestPainSummary, Critical)
    ensures !ChestPainRule(Lower(description)) && BreathingRule(Lower(description)) ==>
              AnalyzeSymptoms(description) == Assessment(BreathingSummary, Critical)
    ensures !ChestPainRule(Lower(description)) && !BreathingRule(Lower(description)) ==>
              AnalyzeSymptoms(description) == Assessment(Lower(description), Moderate)
  {
  }

  /** A description is critical exactly when one of the two rules matches. */
  lemma CriticalIff(description: string)
    ensures AnalyzeSymptoms(description).severity == Critical <==>
              ChestPainRule(Lower(description)) || BreathingRule(Lower(description))
  {
  }

  /** Lower-casing is idempotent. */
  lemma LowerIdempotent(s: string)
    ensures Lower(Lower(s)) == Lower(s)
  {
  }

  /** Lower-casing commutes with taking a slice. */
  lemma LowerSlice(s: string, i: int, j: int)
    requires 0 <= i <= j <= |s|
    ensures Lower(s)[i..j] == Lower(s[i..j])
  {
  }

  /** Whatever occurs in a text occurs, lower-cased, in the lower-cased text. */
  lemma ContainsLower(text: string, pattern: string)
    requires Contains(text, pattern)
    ensures Contains(Lower(text), Lower(pattern))
  {
    var i :| 0 <= i <= |text| - |pattern| && OccursAt(text, pattern, i);
    LowerSlice(text, i, i + |pattern|);
    assert OccursAt(Lower(text), Lower(pattern), i);
  }

  /** The triage does not depend on letter case: a description and its
      lower-cased form are triaged alike. */
  lemma CaseInsensitive(description: string)
    ensures AnalyzeSymptoms(Lower(description)) == AnalyzeSymptoms(description)
  {
    LowerIdempotent(description);
  }

  /** A description that mentions chest pain and the arm or the left side, in
      whatever letter case, is critical with the fixed chest-pain summary. */
  lemma ChestPainAnyCase(description: string, chest: string, side: string)
    requires Lower(chest) == "chest pain"
    requires Lower(side) == "arm" || Lower(side) == "left"
    requires Contains(description, chest) && Contains(description, side)
    ensures AnalyzeSymptoms(description) == Assessment(ChestPainSummary, Critical)
  {
    ContainsLower(description, chest);
    ContainsLower(description, side);
  }

  /** A description that mentions difficulty breathing, in whatever letter
      case, is critical; its summary is the breathing summary unless the
      chest-pain rule matched first. */
  lemma BreathingAnyCase(description: string, phrase: string)
    requires Lower(phrase) == "difficulty breathing"
    requires Contains(description, phrase)
    ensures AnalyzeSymptoms(description).severity == Critical
    ensures !ChestPainRule(Lower(description)) ==>
              AnalyzeSymptoms(description).summary == BreathingSummary
  {
    ContainsLower(description, phrase);
  }
}
