// The emergency protocol of the assistant: detect an emergency, triage the
// symptoms, and then either notify the emergency contacts directly (critical
// symptoms, or no available hospital) or alert the selected hospital and then
// notify the contacts. Side effects are recorded as a trace of actions.

module Protocol {

  import opened SymptomTriage
  import opened Selection

  datatype EmergencyContact = EmergencyContact(name: string, phone: string)

  datatype MedicalHistory = MedicalHistory(
    allergies: seq<string>,
    conditions: seq<string>,
    medications: seq<string>)

  /** An outward action of the protocol: an alert sent to a hospital, or a
      notification sent to an emergency contact. */
  datatype Action = Alert(hospital: Hospital) | Notify(contact: EmergencyContact)

  /** The four ways the protocol can end. */
  datatype Exit =
    | NoEmergency
    | CriticalCondition
    | NoAvailableHospital
    | Dispatched(hospital: Hospital)

  /** One notification per contact, in list order. */
  function Notifications(contacts: seq<EmergencyContact>): (t: seq<Action>)
    ensures |t| == |contacts|
    ensures forall k :: 0 <= k < |t| ==> t[k] == Notify(contacts[k])
  {
    if contacts == [] then []
    else Notifications(contacts[..|contacts| - 1]) + [Notify(contacts[|contacts| - 1])]
  }

  /** The number of hospital alerts in a trace. */
  function AlertCount(t: seq<Action>): nat
  {
    if t == [] then 0
    else AlertCount(t[..|t| - 1]) + (if t[|t| - 1].Alert? then 1 else 0)
  }

  /** The path the protocol takes for the given detection inputs and reports. */
  function ProtocolExit(voiceInput: string, autoDetected: bool,
                        hospitals: seq<Hospital>, reports: seq<Report>): (exit: Exit)
    requires |reports| == |hospitals|
    ensures exit == NoEmergency <==> voiceInput == [] && !autoDetected
    ensures exit == CriticalCondition <==>
              (voiceInput != [] || autoDetected) && AnalyzeSymptoms(voiceInput).severity == Critical
    ensures exit == NoAvailableHospital ==>
              forall i :: 0 <= i < |hospitals| ==> !reports[i].availability.available
    ensures exit.Dispatched? ==>
              AnalyzeSymptoms(voiceInput).severity == Moderate &&
              exists i :: IsFirstBest(hospitals, reports, i) && hospitals[i] == exit.hospital
  {
    SelectedHospital(hospitals, reports);
    if voiceInput == [] && !autoDetected then NoEmergency
    else if AnalyzeSymptoms(voiceInput).severity == Critical then CriticalCondition
    else match HospitalOf(SelectOptimal(hospitals, reports))
      case None => NoAvailableHospital
      case Some(h) => Dispatched(h)
  }

  /** The actions performed on each path. */
  function ExitActions(exit: Exit, contacts: seq<EmergencyContact>): (t: seq<Action>)
    ensures exit == NoEmergency ==> t == []
    ensures exit != NoEmergency ==>
              |t| == |contacts| + (if exit.Dispatched? then 1 else 0) &&
              t[|t| - |contacts|..] == Notifications(contacts)
    ensures exit.Dispatched? ==> t[0] == Alert(exit.hospital)
  {
    match exit
    case NoEmergency => []
    case CriticalCondition => Notifications(contacts)
    case NoAvailableHospital => Notifications(contacts)
    case Dispatched(h) => [Alert(h)] + Notifications(contacts)
  }

  /** Alerts in a concatenation add up. */
  lemma {:induction false} AlertCountAppend(s: seq<Action>, t: seq<Action>)
    ensures AlertCount(s + t) == AlertCount(s) + AlertCount(t)
    decreases |t|
  {
    if t != [] {
      var n := |t| - 1;
      assert (s + t)[..|s + t| - 1] == s + t[..n];
      AlertCountAppend(s, t[..n]);
    } else {
      assert s + t == s;
    }
  }

  /** Notifying the contacts never alerts a hospital. */
  lemma {:induction false} NotificationsSendNoAlert(contacts: seq<EmergencyContact>)
    ensures AlertCount(Notifications(contacts)) == 0
  {
    if contacts != [] {
      var n := |contacts| - 1;
      var t := Notifications(contacts);
      assert t[..|t| - 1] == Notifications(contacts[..n]);
      NotificationsSendNoAlert(contacts[..n]);
    }
  }

  /** With no voice input and no automatic trigger nothing is done. */
  lemma NoEmergencyDoesNothing(hospitals: seq<Hospital>, reports: seq<Report>,
                               contacts: seq<EmergencyContact>, autoDetected: bool)
    requires |reports| == |hospitals|
    requires !autoDetected
    ensures ProtocolExit([], autoDetected, hospitals, reports) == NoEmergency
    ensures ExitActions(ProtocolExit([], autoDetected, hospitals, reports), contacts) == []
  {
  }

  /** On critical symptoms hospital selection is skipped: no alert is sent and
      each contact is notified once, in list order, whatever the reports say. */
  lemma CriticalNotifiesOnly(voiceInput: string, autoDetected: bool,
                             hospitals: seq<Hospital>, reports: seq<Report>,
                             contacts: seq<EmergencyContact>)
    requires |reports| == |hospitals|
    requires voiceInput != [] || autoDetected
    requires AnalyzeSymptoms(voiceInput).severity == Critical
    ensures var t := ExitActions(ProtocolExit(voiceInput, autoDetected, hospitals, reports), contacts);
            AlertCount(t) == 0 && |t| == |contacts| &&
            forall k :: 0 <= k < |t| ==> t[k] == Notify(contacts[k])
  {
    NotificationsSendNoAlert(contacts);
  }

  /** When no hospital is available (or none is configured) the contacts are
      notified once each and no alert is sent. */
  lemma NoHospitalNotifiesOnly(voiceInput: string, autoDetected: bool,
                               hospitals: seq<Hospital>, reports: seq<Report>,
                               contacts: seq<EmergencyContact>)
    requires |reports| == |hospitals|
    requires voiceInput != [] || autoDetected
    requires AnalyzeSymptoms(voiceInput).severity == Moderate
    requires forall i :: 0 <= i < |hospitals| ==> !reports[i].availability.available
    ensures ProtocolExit(voiceInput, autoDetected, hospitals, reports) == NoAvailableHospital
    ensures var t := ExitActions(ProtocolExit(voiceInput, autoDetected, hospitals, reports), contacts);
            AlertCount(t) == 0 && |t| == |contacts| &&
            forall k :: 0 <= k < |t| ==> t[k] == Notify(contacts[k])
  {
    SelectNoneIff(hospitals, reports);
    NotificationsSendNoAlert(contacts);
  }

  /** With moderate symptoms and some hospital available, exactly one alert
      goes out, first, to the first best available hospital, and then every
      contact is notified in list order. */
  lemma DispatchAlertsThenNotifies(voiceInput: string, autoDetected: bool,
                                   hospitals: seq<Hospital>, reports: seq<Report>,
                                   contacts: seq<EmergencyContact>, available: int)
    requires |reports| == |hospitals|
    requires voiceInput != [] || autoDetected
    requires AnalyzeSymptoms(voiceInput).severity == Moderate
    requires 0 <= available < |hospitals| && reports[available].availability.available
    ensures var t := ExitActions(ProtocolExit(voiceInput, autoDetected, hospitals, reports), contacts);
            AlertCount(t) == 1 && |t| == |contacts| + 1 &&
            (exists i :: IsFirstBest(hospitals, reports, i) && t[0] == Alert(hospitals[i])) &&
            t[1..] == Notifications(contacts)
  {
    SelectNoneIff(hospitals, reports);
    SelectIsFirstBest(hospitals, reports);
    var c := SelectOptimal(hospitals, reports).value;
    var t := ExitActions(ProtocolExit(voiceInput, autoDetected, hospitals, reports), contacts);
    assert t == [Alert(c.hospital)] + Notifications(contacts);
    assert IsFirstBest(hospitals, reports, c.position);
    NotificationsSendNoAlert(contacts);
    AlertCountAppend([Alert(c.hospital)], Notifications(contacts));
    assert [Alert(c.hospital)][..0] == [];
  }

  /** Once an emergency is detected the contacts are always notified, after
      every other action. */
  lemma ContactsAlwaysNotifiedLast(voiceInput: string, autoDetected: bool,
                                   hospitals: seq<Hospital>, reports: seq<Report>,
                                   contacts: seq<EmergencyContact>)
    requires |reports| == |hospitals|
    requires voiceInput != [] || autoDetected
    ensures var t := ExitActions(ProtocolExit(voiceInput, autoDetected, hospitals, reports), contacts);
            |contacts| <= |t| && t[|t| - |contacts|..] == Notifications(contacts)
  {
    var t := ExitActions(ProtocolExit(voiceInput, autoDetected, hospitals, reports), contacts);
    if ProtocolExit(voiceInput, autoDetected, hospitals, reports).Dispatched? {
      assert t[1..] == Notifications(contacts);
    } else {
      assert t == Notifications(contacts);
      assert t[0..] == t;
    }
  }

  /** An alert is sent only for moderate symptoms, only to an available
      hospital that the selection ranks first, and only as the first action. */
  lemma AlertOnlyToSelectedHospital(voiceInput: string, autoDetected: bool,
                                    hospitals: seq<Hospital>, reports: seq<Report>,
                                    contacts: seq<EmergencyContact>, k: int)
    requires |reports| == |hospitals|
    requires var t := ExitActions(ProtocolExit(voiceInput, autoDetected, hospitals, reports), contacts);
             0 <= k < |t| && t[k].Alert?
    ensures k == 0
    ensures AnalyzeSymptoms(voiceInput).severity == Moderate
    ensures exists i :: (IsFirstBest(hospitals, reports, i) &&
      ExitActions(ProtocolExit(voiceInput, autoDetected, hospitals, reports), contacts)[k].hospital == hospitals[i])
  {
  }


  /** The assistant for one patient. The hospital and contact lists are the
      configuration it is given; `actions` records what it has done. */
  class EmergencyAssistant {
    const patientAddress: string
    const patientCoordinates: Coordinates
    const medicalHistory: MedicalHistory
    const hospitals: seq<Hospital>
    const contacts: seq<EmergencyContact>
    var currentSymptoms: string
    var symptomSeverity: Severity
    var actions: seq<Action>

    /** A missing medical history is replaced by an empty one. */
    constructor(patientAddress: string, patientCoordinates: Coordinates,
                medicalHistory: Option<MedicalHistory>,
                hospitals: seq<Hospital>, contacts: seq<EmergencyContact>)
      ensures this.patientAddress == patientAddress
      ensures this.patientCoordinates == patientCoordinates
      ensures this.medicalHistory == (if medicalHistory.Some? then medicalHistory.value
                                      else MedicalHistory([], [], []))
      ensures this.hospitals == hospitals && this.contacts == contacts
      ensures currentSymptoms == [] && symptomSeverity == Unknown && actions == []
    {
      this.patientAddress := patientAddress;
      this.patientCoordinates := patientCoordinates;
      this.medicalHistory := if medicalHistory.Some? then medicalHistory.value
                             else MedicalHistory([], [], []);
      this.hospitals := hospitals;
      this.contacts := contacts;
      currentSymptoms := [];
      symptomSeverity := Unknown;
      actions := [];
    }

    /** Sends the alert to the chosen hospital. */
    method SendEmergencyAlert(hospital: Hospital)
      modifies this`actions
      ensures actions == old(actions) + [Alert(hospital)]
    {
      actions := actions + [Alert(hospital)];
    }

    /** Notifies every emergency contact, in list order. */
    method NotifyContacts()
      modifies this`actions
      ensures actions == old(actions) + Notifications(contacts)
    {
      for i := 0 to |contacts|
        invariant actions == old(actions) + Notifications(contacts[..i])
      {
        assert contacts[..i + 1][..i] == contacts[..i];
        actions := actions + [Notify(contacts[i])];
      }
      assert contacts[..|contacts|] == contacts;
    }

    /** Runs the protocol once. The voice input and the automatic trigger are
        the detection results; `reports` holds one availability and traffic
        report per configured hospital. */
    method ExecuteEmergencyProtocol(voiceInput: string, autoDetected: bool, reports: seq<Report>)
      requires |reports| == |hospitals|
      modifies this`currentSymptoms, this`symptomSeverity, this`actions
      ensures actions == old(actions) +
                ExitActions(ProtocolExit(voiceInput, autoDetected, hospitals, reports), contacts)
      ensures voiceInput == [] && !autoDetected ==>
                currentSymptoms == old(currentSymptoms) && symptomSeverity == old(symptomSeverity)
      ensures voiceInput != [] || autoDetected ==>
                Assessment(currentSymptoms, symptomSeverity) == AnalyzeSymptoms(voiceInput)
    {
      ghost var exit := ProtocolExit(voiceInput, autoDetected, hospitals, reports);
      if voiceInput == [] && !autoDetected {
        assert exit == NoEmergency;
        return;
      }

      var assessment := AnalyzeSymptoms(voiceInput);
      currentSymptoms, symptomSeverity := assessment.summary, assessment.severity;

      if symptomSeverity == Critical {
        assert exit == CriticalCondition;
        NotifyContacts();
        return;
      }

      var best := SelectOptimalHospital(hospitals, reports);
      if best.None? {
        assert exit == NoAvailableHospital;
        NotifyContacts();
        return;
      }

      assert exit == Dispatched(best.value);
      ghost var before := actions;
      SendEmergencyAlert(best.value);
      NotifyContacts();
      assert actions == before + ([Alert(best.value)] + Notifications(contacts));
    }
  }
}
