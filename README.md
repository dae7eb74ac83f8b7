# Emergency assistant: triage, hospital selection and protocol, in Dafny

This project models the deterministic decision logic of the emergency
assistant in `ai_emergency_assistance.py` (class `EmergencyAssistantAI`) and
proves what it does:

- **Symptom triage** (`SymptomTriage`, `triage.dfy`). The description is
  lower-cased and matched against an ordered, first-match-wins list of keyword
  rules. Chest pain together with "arm" or "left" gives
  `("Severe chest pain, arm numbness", critical)`. Otherwise "difficulty
  breathing" gives `("Difficulty breathing", critical)`. Otherwise the result
  is the lower-cased description with severity `moderate`. Python's `in` on
  strings is `Contains`.
- **Hospital selection** (`Selection`, `selection.dfy`). A loop keeps the
  hospitals whose availability report says available. A travel or wait time
  of 0 is replaced by 1, and each kept hospital is scored
  `0.7/travel + 0.3/wait`. Scores are exact `real` numbers. The result is the
  best-scoring hospital, or nothing when no hospital was kept. Python's
  `sorted(..., reverse=True)` is stable, so its first element is the earliest
  entry with the maximal score. The method models that sort-then-`[0]` step as
  a second loop that replaces the best entry so far only on a strictly higher
  score. The scorer's division is only defined for non-zero times, so the
  verifier itself checks that the clamping rules out division by zero.
- **Protocol** (`Protocol`, `protocol.dfy`). The class `EmergencyAssistant`
  has the fields `currentSymptoms` and `symptomSeverity`. Its
  `ExecuteEmergencyProtocol` takes one of four exits:
  - no emergency: nothing is done;
  - critical: the contacts are notified;
  - no hospital: the contacts are notified;
  - dispatched: the selected hospital is alerted, then the contacts are
    notified.

  Outward side effects are recorded in an `actions` trace of `Alert(h)` and
  `Notify(c)`. The trace is tied to the functions `ProtocolExit` and
  `ExitActions`, and the lemmas about those functions state which actions
  happen on which path.

The random parts of the program are parameters of the model: the
voice-command text, the automatic trigger, and one availability report plus
one traffic report per configured hospital. The hospital and contact lists
are static configuration in the program (`Config`). Here the assistant's
constructor receives them.

The built-in voice command ("I feel a sharp pain in my chest and my arm is
numb.") reads like the chest-pain case, but the code does not triage it as
critical. That text never contains the phrase
"chest pain" ("pain in my chest" is a different word order), and it does not
contain "difficulty breathing". The code therefore triages it as moderate
and goes on to hospital selection.

## Model

| member | source | states |
|---|---|---|
| SymptomTriage.LowerChar | ai_emergency_assistance.py:136 | an upper-case ASCII letter maps to its lower-case letter; every other character is unchanged |
| SymptomTriage.Lower | ai_emergency_assistance.py:136 | lower-casing keeps the length and lower-cases each character in place |
| SymptomTriage.Contains | ai_emergency_assistance.py:138-140 | Python's substring test; its own contract gives only side facts (a match is no longer than the text; the empty pattern and the text itself match); that a match survives lower-casing is stated by ContainsLower, and what a match decides is stated by TriageRules, ChestPainAnyCase and BreathingAnyCase |
| SymptomTriage.ChestPainRule | ai_emergency_assistance.py:138 | the first rule (chest pain with arm or left); its own contract gives only that a match needs a text at least as long as "chest pain"; that it wins first and yields the chest-pain pair in any letter case is stated by TriageRules and ChestPainAnyCase |
| SymptomTriage.BreathingRule | ai_emergency_assistance.py:140 | the second rule (difficulty breathing); its own contract gives only that a match needs a text at least as long as the phrase; that it makes the triage critical in any letter case is stated by TriageRules and BreathingAnyCase |
| SymptomTriage.AnalyzeSymptoms | ai_emergency_assistance.py:133-142 | severity is always critical or moderate; a moderate result's summary is the lower-cased description |
| SymptomTriage.TriageRules | ai_emergency_assistance.py:136-142 | the rules in order: chest-pain rule gives the fixed chest-pain pair; else the breathing rule gives the fixed breathing pair; else (lower-cased text, moderate) |
| SymptomTriage.CriticalIff | ai_emergency_assistance.py:138-142 | severity is critical exactly when one of the two rules matches the lower-cased text |
| SymptomTriage.LowerIdempotent | ai_emergency_assistance.py:136 | lower-casing twice is the same as lower-casing once |
| SymptomTriage.ContainsLower | ai_emergency_assistance.py:136-140 | a substring of the text, lower-cased, is a substring of the lower-cased text |
| SymptomTriage.CaseInsensitive | ai_emergency_assistance.py:136 | a description and its lower-cased form get the same triage |
| SymptomTriage.ChestPainAnyCase | ai_emergency_assistance.py:136-139 | a description containing "chest pain" and "arm" or "left" in any letter case is (chest-pain summary, critical) |
| SymptomTriage.BreathingAnyCase | ai_emergency_assistance.py:136-141 | "difficulty breathing" in any letter case makes the severity critical; without the chest-pain rule the summary is the breathing summary |
| Selection.AtLeastOne | ai_emergency_assistance.py:180-184 | a time of 0 becomes 1, every non-zero time is kept, so the result is never 0 and is at least 1 for non-negative input |
| Selection.Score | ai_emergency_assistance.py:188 | 0.7/travel + 0.3/wait, defined only for non-zero times; for times of at least 1 the score lies in (0, 1], and equals 1 when both are 1 |
| Selection.Entry | ai_emergency_assistance.py:176-189 | an available hospital yields exactly one entry with its position, its travel time clamped by AtLeastOne (hence non-zero) and its report's score; an unavailable one yields none |
| Selection.Ranked | ai_emergency_assistance.py:171-189 | the ranking has at most one entry per hospital; what the entries are is stated by RankedSound, RankedOrdered and RankedComplete |
| Selection.Best | ai_emergency_assistance.py:194 | the stable sort's first entry is absent exactly for an empty ranking and otherwise is one of its entries; that it is the first maximum is stated by BestIsFirstMaximum |
| Selection.SelectOptimal | ai_emergency_assistance.py:191-194 | the selected entry is absent exactly when the ranking is empty, and is otherwise an entry of the ranking; its meaning is stated by SelectNoneIff and SelectIsFirstBest |
| Selection.ShorterTravelScoresHigher | ai_emergency_assistance.py:188 | with equal wait times, a shorter positive travel time gives a strictly higher score |
| Selection.ShorterWaitScoresHigher | ai_emergency_assistance.py:188 | with equal travel times, a shorter positive wait time gives a strictly higher score |
| Selection.BestIsFirstMaximum | ai_emergency_assistance.py:191-194 | the stable descending sort's first entry is absent only for an empty ranking, else it is the first entry with maximal score |
| Selection.RankedSound | ai_emergency_assistance.py:172-189 | every ranking entry is an available hospital of the list at its position, with clamped travel time and its report's score |
| Selection.RankedOrdered | ai_emergency_assistance.py:172-185 | ranking entries appear in list order (positions strictly increase) |
| Selection.RankedComplete | ai_emergency_assistance.py:172-189 | every available hospital has an entry in the ranking |
| Selection.SelectNoneIff | ai_emergency_assistance.py:171-192 | selection is None exactly when no hospital in the list is available, including the empty list |
| Selection.SelectIsFirstBest | ai_emergency_assistance.py:185-194 | the selected entry is an available hospital of the list, scores at least as much as every available hospital, and strictly more than every earlier one |
| Selection.SelectedHospital | ai_emergency_assistance.py:171-194 | the selected hospital is None exactly when none is available, and otherwise is the hospital at a first-best position |
| Selection.FirstBestUnique | ai_emergency_assistance.py:194 | at most one list position is the first best |
| Selection.SelectOptimalHospital | ai_emergency_assistance.py:167-194 | the loop's result is the specified selection; None iff nothing is available; otherwise the first best available hospital |
| Selection.ShorterTravelWins | ai_emergency_assistance.py:185-194 | travel 10 / wait 10 scores 0.1, travel 5 / wait 40 scores 0.1475, and the second hospital is selected |
| Selection.ZeroTimesTieFirstWins | ai_emergency_assistance.py:180-194 | zero times score as if they were 1; on the resulting tie the first hospital is selected |
| Protocol.ProtocolExit | ai_emergency_assistance.py:217-247 | no emergency exactly without voice input and trigger; critical exactly on a detected emergency with critical triage; no hospital only when none is available; dispatch only on moderate triage to a first-best hospital |
| Protocol.ExitActions | ai_emergency_assistance.py:225-247 | no action on the no-emergency exit; otherwise the trace ends with all notifications, preceded on dispatch by one alert to the chosen hospital |
| Protocol.Notifications | ai_emergency_assistance.py:209-212 | one notification per contact, in list order |
| Protocol.NotificationsSendNoAlert | ai_emergency_assistance.py:209-212 | notifying contacts sends no hospital alert |
| Protocol.NoEmergencyDoesNothing | ai_emergency_assistance.py:225-227 | with no voice input and no trigger, the protocol ends with no action |
| Protocol.CriticalNotifiesOnly | ai_emergency_assistance.py:233-236 | on critical severity no alert is sent and each contact is notified once in list order, whatever the hospital reports |
| Protocol.NoHospitalNotifiesOnly | ai_emergency_assistance.py:239-243 | with moderate severity and no available hospital, no alert is sent and each contact is notified once in list order |
| Protocol.DispatchAlertsThenNotifies | ai_emergency_assistance.py:239-247 | with moderate severity and some available hospital, exactly one alert goes first to the first best hospital, then all contacts are notified in order |
| Protocol.ContactsAlwaysNotifiedLast | ai_emergency_assistance.py:233-247 | once an emergency is detected, the trace always ends with the notification of every contact |
| Protocol.AlertOnlyToSelectedHospital | ai_emergency_assistance.py:233-247 | any alert is the first action, happens only on moderate severity, and goes to the first best available hospital |
| Protocol.EmergencyAssistant.constructor | ai_emergency_assistance.py:99-113 | fields are set from the arguments; a missing medical history becomes an empty one; symptoms empty, severity unknown, no actions |
| Protocol.EmergencyAssistant.SendEmergencyAlert | ai_emergency_assistance.py:199-206 | appends exactly one alert to the given hospital |
| Protocol.EmergencyAssistant.NotifyContacts | ai_emergency_assistance.py:209-212 | appends one notification per configured contact, in list order |
| Protocol.EmergencyAssistant.ExecuteEmergencyProtocol | ai_emergency_assistance.py:217-248 | the appended actions are those of the taken exit; on a detected emergency the symptom fields hold the triage result, otherwise they are unchanged |

## Left out

- `mainagent.py` is not part of this model. It hands every decision to an external language-model service with function calling and reads its configuration from the environment.
- The emergency trigger draw (ai_emergency_assistance.py:128), the availability draw (ai_emergency_assistance.py:150-153) and the random traffic factor (ai_emergency_assistance.py:163) are random. They are parameters: `autoDetected` and the per-hospital `Report`s.
- The voice listener (ai_emergency_assistance.py:119-123) is a stub returning a fixed sentence. Its text is the `voiceInput` parameter.
- The distance and travel-time computation (ai_emergency_assistance.py:159-164) uses float powers, square root and `round`. The travel time is taken as a given integer, and the distance is carried but unused.
- The score is computed with exact rationals, not IEEE doubles. Python floats could order near-ties differently, and the tie-break here is stated on exact equality.
- Only ASCII letters A-Z are lower-cased. Python's `str.lower` also maps other Unicode letters, and for a few of them it changes the string length.
- The alert message template and `json.dumps` of the medical history (ai_emergency_assistance.py:201-205) build a string that is discarded. Only the fact of the alert and its hospital are modelled.
- Logging, the static `Config` values and the module-level example run (ai_emergency_assistance.py:254-265) are left out. The configuration lists are constructor arguments.
- Selection.SelectOptimalHospital: the ranking's `sorted(..., reverse=True)[0]` is modelled by its result, the first entry with maximal score, not by a full sort.
- Coordinates are carried as `real` pairs and are not checked for valid ranges. The source does not check them either.
