/** The staff member's appointment dialog: the edit guard, the time check
    made before submitting, and the form payload it sends. */
module AppointmentModalUi {
  import opened Wrappers
  import opened Text
  import opened TimeOfDay
  import AppointmentsTableUi

  /** `canEdit`. */
  predicate CanEdit(status: string) {
    status != "completed" && status != "cancelled"
  }

  /** The dialog and the list agree on which appointments are editable. */
  lemma CanEditMatchesEditButton(status: string)
    ensures CanEdit(status) <==> AppointmentsTableUi.ShowEditButton(status)
    ensures !CanEdit(status) <==> status == "completed" || status == "cancelled"
  {
  }

  /** The save button: edit mode on an editable appointment. */
  predicate ShowSaveButton(isViewMode: bool, status: string) {
    !isViewMode && CanEdit(status)
  }

  /** The "no se puede editar" warning: edit mode on a completed or
      cancelled appointment. */
  predicate ShowReadOnlyWarning(isViewMode: bool, status: string) {
    !isViewMode && !CanEdit(status)
  }

  /** In edit mode exactly one of the two shows; in view mode neither. */
  lemma SaveOrWarning(isViewMode: bool, status: string)
    ensures !isViewMode ==> ShowSaveButton(isViewMode, status) != ShowReadOnlyWarning(isViewMode, status)
    ensures isViewMode ==> !ShowSaveButton(isViewMode, status) && !ShowReadOnlyWarning(isViewMode, status)
  {
  }

  /** `endTime <= startTime` on the texts. */
  predicate SubmitBlocked(startTime: string, endTime: string) {
    !StrLess(startTime, endTime)
  }

  /** For zero-padded times the text comparison is the minute comparison,
      so the dialog blocks exactly what the save action's refinement would
      reject. */
  lemma SubmitCheckIsMinuteCheck(startTime: string, endTime: string)
    requires IsClock(startTime) && IsClock(endTime)
    ensures SubmitBlocked(startTime, endTime) <==> ClockMinutes(endTime) <= ClockMinutes(startTime)
  {
    ClockOrder(startTime, endTime);
  }

  /** The payload's field names. */
  datatype Field =
    | Id | PatientId | AppointmentDate | StartTime | EndTime | StatusField
    | ConsultationType | Notes | ConsultationRoomId

  /** The name under which a field is appended. */
  function FieldName(f: Field): string {
    match f
    case Id => "id"
    case PatientId => "patientId"
    case AppointmentDate => "appointmentDate"
    case StartTime => "startTime"
    case EndTime => "endTime"
    case StatusField => "status"
    case ConsultationType => "consultationType"
    case Notes => "notes"
    case ConsultationRoomId => "consultationRoomId"
  }

  lemma FieldNamesDistinct(f: Field, g: Field)
    ensures FieldName(f) == FieldName(g) ==> f == g
  {
  }

  /** One `FormData.append`. */
  datatype Entry = Entry(key: Field, value: string)

  /** The value of the first entry under `key`, as `FormData.get` reads it. */
  function Lookup(entries: seq<Entry>, key: Field): Option<string> {
    if entries == [] then None
    else if entries[0].key == key then Some(entries[0].value)
    else Lookup(entries[1..], key)
  }

  /** No key appears twice. */
  predicate DistinctKeys(entries: seq<Entry>) {
    forall i, j :: 0 <= i < j < |entries| ==> entries[i].key != entries[j].key
  }

  lemma {:induction false} LookupConcat(a: seq<Entry>, b: seq<Entry>, key: Field)
    ensures Lookup(a + b, key) == if Lookup(a, key).Some? then Lookup(a, key) else Lookup(b, key)
  {
    if a != [] {
      assert (a + b)[0] == a[0] && (a + b)[1..] == a[1..] + b;
      LookupConcat(a[1..], b, key);
    } else {
      assert a + b == b;
    }
  }

  lemma {:induction false} LookupFinds(entries: seq<Entry>, i: int)
    requires DistinctKeys(entries) && 0 <= i < |entries|
    ensures Lookup(entries, entries[i].key) == Some(entries[i].value)
  {
    if i > 0 {
      LookupFinds(entries[1..], i - 1);
    }
  }

  lemma {:induction false} LookupMissing(entries: seq<Entry>, key: Field)
    requires forall i :: 0 <= i < |entries| ==> entries[i].key != key
    ensures Lookup(entries, key) == None
  {
    if entries != [] {
      LookupMissing(entries[1..], key);
    }
  }

  /** The dialog's fields, all as text. */
  datatype FormState = FormState(
    appointmentDate: string, startTime: string, endTime: string, status: string,
    consultationType: string, notes: string, consultationRoomId: string)

  /** An entry appended only when its value is non-empty. */
  function IfPresent(key: Field, value: string): seq<Entry> {
    if value != "" then [Entry(key, value)] else []
  }

  lemma LookupIfPresent(key: Field, value: string, k: Field)
    ensures Lookup(IfPresent(key, value), k) == if k == key && value != "" then Some(value) else None
  {
    if value != "" {
      assert IfPresent(key, value)[1..] == [];
    }
  }

  /** The payload of a submit, in append order. */
  function Payload(id: nat, patientId: nat, form: FormState): seq<Entry> {
    [Entry(Id, NatToString(id)), Entry(PatientId, NatToString(patientId)),
     Entry(AppointmentDate, form.appointmentDate), Entry(StartTime, form.startTime),
     Entry(EndTime, form.endTime), Entry(StatusField, form.status)]
    + IfPresent(ConsultationType, form.consultationType)
    + IfPresent(Notes, form.notes)
    + IfPresent(ConsultationRoomId, form.consultationRoomId)
  }

  /** The payload names each field at most once; the id and patient are
      always the appointment's own, so the patient cannot be changed from
      the dialog; the three optional fields are present exactly when
      non-empty. */
  lemma PayloadContents(id: nat, patientId: nat, form: FormState)
    ensures DistinctKeys(Payload(id, patientId, form))
    ensures var p := Payload(id, patientId, form);
            Lookup(p, Id) == Some(NatToString(id))
            && Lookup(p, PatientId) == Some(NatToString(patientId))
            && Lookup(p, AppointmentDate) == Some(form.appointmentDate)
            && Lookup(p, StartTime) == Some(form.startTime)
            && Lookup(p, EndTime) == Some(form.endTime)
            && Lookup(p, StatusField) == Some(form.status)
    ensures var p := Payload(id, patientId, form);
            Lookup(p, ConsultationType) == (if form.consultationType != "" then Some(form.consultationType) else None)
            && Lookup(p, Notes) == (if form.notes != "" then Some(form.notes) else None)
            && Lookup(p, ConsultationRoomId) == (if form.consultationRoomId != "" then Some(form.consultationRoomId) else None)
  {
    var base := [Entry(Id, NatToString(id)), Entry(PatientId, NatToString(patientId)),
                 Entry(AppointmentDate, form.appointmentDate), Entry(StartTime, form.startTime),
                 Entry(EndTime, form.endTime), Entry(StatusField, form.status)];
    assert base == Payload(id, patientId, form)[..6];
    LookupFinds(base, 0);
    LookupFinds(base, 1);
    LookupFinds(base, 2);
    LookupFinds(base, 3);
    LookupFinds(base, 4);
    LookupFinds(base, 5);
    LookupMissing(base, ConsultationType);
    LookupMissing(base, Notes);
    LookupMissing(base, ConsultationRoomId);
    PayloadLookup(id, patientId, form, base, ConsultationType);
    PayloadLookup(id, patientId, form, base, Notes);
    PayloadLookup(id, patientId, form, base, ConsultationRoomId);
    PayloadLookup(id, patientId, form, base, AppointmentDate);
    PayloadLookup(id, patientId, form, base, StartTime);
    PayloadLookup(id, patientId, form, base, EndTime);
    PayloadLookup(id, patientId, form, base, StatusField);
    PayloadLookup(id, patientId, form, base, Id);
    PayloadLookup(id, patientId, form, base, PatientId);
  }

  /** A field is read from the fixed part when it is there, otherwise
      from the optional entry that carries it. */
  lemma PayloadLookup(id: nat, patientId: nat, form: FormState, base: seq<Entry>, key: Field)
    requires base == Payload(id, patientId, form)[..6]
    ensures Lookup(Payload(id, patientId, form), key)
            == if Lookup(base, key).Some? then Lookup(base, key)
               else if key == ConsultationType && form.consultationType != "" then Some(form.consultationType)
               else if key == Notes && form.notes != "" then Some(form.notes)
               else if key == ConsultationRoomId && form.consultationRoomId != "" then Some(form.consultationRoomId)
               else None
  {
    var o1 := IfPresent(ConsultationType, form.consultationType);
    var o2 := IfPresent(Notes, form.notes);
    var o3 := IfPresent(ConsultationRoomId, form.consultationRoomId);
    assert Payload(id, patientId, form) == base + o1 + o2 + o3;
    LookupIfPresent(ConsultationType, form.consultationType, key);
    LookupIfPresent(Notes, form.notes, key);
    LookupIfPresent(ConsultationRoomId, form.consultationRoomId, key);
    LookupConcat(base + o1 + o2, o3, key);
    LookupConcat(base + o1, o2, key);
    LookupConcat(base, o1, key);
  }

  /** `handleSubmit`: refuses when the end is not after the start;
      otherwise builds the payload by successive appends. */
  method HandleSubmit(id: nat, patientId: nat, form: FormState) returns (payload: Option<seq<Entry>>)
    ensures payload.None? <==> SubmitBlocked(form.startTime, form.endTime)
    ensures payload.Some? ==> payload.value == Payload(id, patientId, form)
  {
    if SubmitBlocked(form.startTime, form.endTime) {
      return None;
    }
    var data: seq<Entry> := [];
    data := data + [Entry(Id, NatToString(id))];
    data := data + [Entry(PatientId, NatToString(patientId))];
    data := data + [Entry(AppointmentDate, form.appointmentDate)];
    data := data + [Entry(StartTime, form.startTime)];
    data := data + [Entry(EndTime, form.endTime)];
    data := data + [Entry(StatusField, form.status)];
    if form.consultationType != "" {
      data := data + [Entry(ConsultationType, form.consultationType)];
    }
    if form.notes != "" {
      data := data + [Entry(Notes, form.notes)];
    }
    if form.consultationRoomId != "" {
      data := data + [Entry(ConsultationRoomId, form.consultationRoomId)];
    }
    payload := Some(data);
  }
}
