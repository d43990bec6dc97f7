/** The create-booking form: its state, the checks it runs before sending,
    the request it sends and how it resets, and the day columns of the
    timetable beside it, whose first column always shows the form's date. */
module BookPage {
  import opened Wrappers
  import opened Text
  import opened StrOrder
  import opened Sorting
  import opened Time
  import opened Records
  import Timetable
  import OtherServices

  datatype Tab = Existing | Walkin

  const PatientMissing: string := "Please select an existing patient."
  const WalkinNameMissing: string := "Walk-in: require name_th or name_en."
  const ServiceMissing: string := "Please select at least one DB service OR add other service."
  const DateTimeMissing: string := "Please select date/time."

  /** The arguments of the create request. */
  datatype CreatePayload = CreatePayload(
    patientId: Option<string>,
    walkinNameTh: Option<string>,
    walkinNameEn: Option<string>,
    walkinPhone: Option<string>,
    dentistId: Option<string>,
    bookingDate: string,
    bookingTime: string,
    serviceIds: seq<string>,
    otherServices: Option<seq<string>>,
    note: Option<string>)

  /** `dateFrom`: the first day of a sorted copy of the columns, the
      earliest day; none when there are no columns. */
  function DateFrom(days: seq<string>): (r: Option<string>)
    ensures r.None? <==> days == []
    ensures r.Some? ==> r.value in days && forall d :: d in days ==> LessEq(r.value, d)
  {
    StringOrderTotal();
    var sorted := Sort(days, StringOrder());
    if sorted == [] then None
    else
      SortedFirst(days, sorted, StringOrder());
      Some(sorted[0])
  }

  /** `dateTo`: the last day of a sorted copy of the columns, the latest
      day; none when there are no columns. */
  function DateTo(days: seq<string>): (r: Option<string>)
    ensures r.None? <==> days == []
    ensures r.Some? ==> r.value in days && forall d :: d in days ==> LessEq(d, r.value)
  {
    StringOrderTotal();
    var sorted := Sort(days, StringOrder());
    if sorted == [] then None
    else
      SortedLast(days, sorted, StringOrder());
      Some(sorted[|sorted| - 1])
  }

  /** The columns span from `dateFrom` to `dateTo`, so the schedule query
      over that range covers every column. */
  lemma DateRangeCoversDays(days: seq<string>)
    requires days != []
    ensures DateFrom(days).Some? && DateTo(days).Some?
    ensures LessEq(DateFrom(days).value, DateTo(days).value)
    ensures forall d :: d in days ==> LessEq(DateFrom(days).value, d) && LessEq(d, DateTo(days).value)
  {
    var lo, hi := DateFrom(days).value, DateTo(days).value;
    assert LessEq(lo, days[0]) && LessEq(days[0], hi);
    LessEqTotalOrder();
  }

  class BookForm {
    var primaryDate: string
    var days: seq<string>
    var tab: Tab
    var patient: Option<Patient>
    var walkinNameTh: string
    var walkinNameEn: string
    var walkinPhone: string
    var dentistId: string
    var time: string
    var serviceIds: seq<string>
    var otherServices: seq<string>
    var otherInput: string
    var note: string
    var formError: Option<string>

    /** The first column is the form's date, and the other services are
        trimmed, non-blank and free of duplicates up to case. */
    ghost predicate Valid()
      reads this
    {
      && |days| >= 1 && days[0] == primaryDate
      && OtherServices.Clean(otherServices)
      && OtherServices.UniqueIgnoringCase(otherServices)
    }

    /** A fresh form: today as the date and the only column, the existing
        patient tab, the first slot, nothing else filled in. */
    constructor (today: string)
      ensures Valid()
      ensures primaryDate == today && days == [today] && tab == Existing && patient == None
      ensures walkinNameTh == [] && walkinNameEn == [] && walkinPhone == [] && dentistId == []
      ensures time == SlotGrid()[0] && time == "10:00"
      ensures serviceIds == [] && otherServices == [] && otherInput == [] && note == [] && formError == None
    {
      SlotGridEnds();
      primaryDate := today;
      days := [today];
      tab := Existing;
      patient := None;
      walkinNameTh, walkinNameEn, walkinPhone := [], [], [];
      dentistId := [];
      time := SlotGrid()[0];
      serviceIds, otherServices := [], [];
      otherInput, note := [], [];
      formError := None;
    }

    /** `validate`: the first failing check, in order patient, services,
        date and time; none when all pass. */
    function Validate(): (r: Option<string>)
      reads this
      ensures r == Some(PatientMissing) <==> tab == Existing && patient.None?
      ensures r == Some(WalkinNameMissing) <==> tab == Walkin && AllSpace(walkinNameTh) && AllSpace(walkinNameEn)
      ensures r == Some(ServiceMissing) <==>
        HasPatient() && serviceIds == [] && !OtherServices.HasAny(otherServices)
      ensures r == Some(DateTimeMissing) <==>
        HasPatient() && HasService() && (primaryDate == [] || time == [])
      ensures r == None <==> HasPatient() && HasService() && primaryDate != [] && time != []
    {
      if tab == Existing && patient.None? then Some(PatientMissing)
      else if tab == Walkin && Trim(walkinNameTh) == [] && Trim(walkinNameEn) == [] then Some(WalkinNameMissing)
      else if !HasService() then Some(ServiceMissing)
      else if primaryDate == [] || time == [] then Some(DateTimeMissing)
      else None
    }

    /** The patient check passes: a picked patient on the existing tab, a
        non-blank name on the walk-in tab. */
    predicate HasPatient()
      reads this
    {
      match tab
      case Existing => patient.Some?
      case Walkin => !AllSpace(walkinNameTh) || !AllSpace(walkinNameEn)
    }

    /** The service check passes: a catalogue service or a non-blank other
        service. */
    predicate HasService()
      reads this
    {
      serviceIds != [] || OtherServices.HasAny(otherServices)
    }

    /** The create request built from the form. Only the fields of the
        active tab are sent; blank texts become null. */
    function Payload(): (p: CreatePayload)
      reads this
      requires tab == Existing ==> patient.Some?
      ensures tab == Existing ==> p.patientId == Some(patient.value.id)
      ensures tab == Existing ==> p.walkinNameTh.None? && p.walkinNameEn.None? && p.walkinPhone.None?
      ensures tab == Walkin ==> p.patientId.None?
      ensures tab == Walkin ==>
        p.walkinNameTh == TrimOrNull(walkinNameTh) && p.walkinNameEn == TrimOrNull(walkinNameEn)
        && p.walkinPhone == TrimOrNull(walkinPhone)
      ensures p.dentistId.None? <==> dentistId == []
      ensures p.dentistId.Some? ==> p.dentistId.value == dentistId
      ensures p.bookingDate == primaryDate && p.bookingTime == TimeToDb(time)
      ensures p.serviceIds == serviceIds
      ensures p.otherServices == OtherServices.Payload(otherServices)
      ensures p.note == TrimOrNull(note)
    {
      var walkin := tab == Walkin;
      CreatePayload(
        if walkin then None else Some(patient.value.id),
        if walkin then TrimOrNull(walkinNameTh) else None,
        if walkin then TrimOrNull(walkinNameEn) else None,
        if walkin then TrimOrNull(walkinPhone) else None,
        if dentistId == [] then None else Some(dentistId),
        primaryDate,
        TimeToDb(time),
        serviceIds,
        OtherServices.Payload(otherServices),
        TrimOrNull(note))
    }

    /** `createBooking` is reached only through `validate`: either the
        first failing message or the request. */
    function Submit(): (r: Result<CreatePayload, string>)
      reads this
      ensures r.Failure? <==> Validate().Some?
      ensures r.Failure? ==> r.error == Validate().value
      ensures r.Success? ==> r.value == Payload()
    {
      match Validate()
      case Some(e) => Failure(e)
      case None => Success(Payload())
    }

    /** A request that passed validation names exactly one kind of
        patient, carries a service and a storage-form time. */
    lemma SubmittedPayload()
      requires Submit().Success?
      ensures var p := Submit().value;
        && (p.patientId.Some? <==> tab == Existing)
        && (p.patientId.None? ==> p.walkinNameTh.Some? || p.walkinNameEn.Some?)
        && (p.serviceIds != [] || p.otherServices.Some?)
        && p.bookingDate != []
        && |p.bookingTime| == |time| + 3
    {
    }

    /** The `days[0]` effect after a new date is picked: the first column
        becomes the date, the other columns stay. */
    method SetPrimaryDate(d: string)
      modifies this
      requires OtherServices.Clean(otherServices) && OtherServices.UniqueIgnoringCase(otherServices)
      ensures Valid()
      ensures primaryDate == d
      ensures old(days) != [] ==> days == [d] + old(days)[1..]
      ensures old(days) == [] ==> days == [d]
      ensures tab == old(tab) && patient == old(patient) && time == old(time) && dentistId == old(dentistId)
      ensures walkinNameTh == old(walkinNameTh) && walkinNameEn == old(walkinNameEn) && walkinPhone == old(walkinPhone)
      ensures serviceIds == old(serviceIds) && otherServices == old(otherServices)
      ensures otherInput == old(otherInput) && note == old(note) && formError == old(formError)
    {
      primaryDate := d;
      days := if days == [] then [d] else [d] + days[1..];
    }

    /** "+ Add day column". */
    method AddDayColumn()
      modifies this`days
      requires Valid()
      ensures Valid()
      ensures days == Timetable.AddDay(old(days))
    {
      days := Timetable.AddDay(days);
    }

    /** The remove button of a column; the first column has none. */
    method RemoveDayColumn(idx: int)
      modifies this`days
      requires Valid()
      ensures Valid()
      ensures days == Timetable.RemoveDay(old(days), idx)
    {
      days := Timetable.RemoveDay(days, idx);
    }

    /** Typing into a column's date box; the first column's box is disabled. */
    method UpdateDayColumn(idx: int, value: string)
      modifies this`days
      requires Valid()
      requires 0 < idx < |days|
      ensures Valid()
      ensures |days| == |old(days)| && days[idx] == value
      ensures forall j :: 0 <= j < |days| && j != idx ==> days[j] == old(days)[j]
    {
      days := Timetable.UpdateDay(days, idx, value);
    }

    /** The Add button or Enter in the other-service box. */
    method AddOtherService()
      modifies this`otherServices, this`otherInput
      requires Valid()
      ensures Valid()
      ensures (otherServices, otherInput) == OtherServices.Add(old(otherServices), old(otherInput))
    {
      var r := OtherServices.Add(otherServices, otherInput);
      OtherServices.AddKeepsInvariant(otherServices, otherInput);
      assert OtherServices.Clean(r.0) && OtherServices.UniqueIgnoringCase(r.0);
      otherServices, otherInput := r.0, r.1;
    }

    /** The remove button of an other service. */
    method RemoveOtherService(s: string)
      modifies this`otherServices
      requires Valid()
      ensures Valid()
      ensures otherServices == OtherServices.Remove(old(otherServices), s)
    {
      OtherServices.RemoveKeepsInvariant(otherServices, s);
      otherServices := OtherServices.Remove(otherServices, s);
    }

    /** After a created booking: the services, the note and the patient of
        the active tab are cleared; date, time, dentist and tab stay. */
    method ResetAfterCreate()
      modifies this
      requires Valid()
      ensures Valid()
      ensures serviceIds == [] && otherServices == [] && otherInput == [] && note == []
      ensures tab == Existing ==> patient.None?
      ensures tab == Existing ==> walkinNameTh == old(walkinNameTh) && walkinNameEn == old(walkinNameEn)
      ensures tab == Existing ==> walkinPhone == old(walkinPhone)
      ensures tab == Walkin ==> patient == old(patient)
      ensures tab == Walkin ==> walkinNameTh == [] && walkinNameEn == [] && walkinPhone == []
      ensures primaryDate == old(primaryDate) && days == old(days) && tab == old(tab)
      ensures time == old(time) && dentistId == old(dentistId) && formError == old(formError)
    {
      serviceIds, otherServices := [], [];
      otherInput, note := [], [];
      if tab == Existing {
        patient := None;
      } else {
        walkinNameTh, walkinNameEn, walkinPhone := [], [], [];
      }
    }

    /** Pressing "Create booking". The error is cleared; a failing check
        shows its message and sends nothing; otherwise the request is sent.
        `failure` is the message of a rejected request, none when the
        booking was created, after which the form is reset. */
    method Create(failure: Option<string>) returns (sent: Option<CreatePayload>)
      modifies this
      requires Valid()
      ensures Valid()
      ensures sent.Some? <==> old(Validate()).None?
      ensures sent.Some? ==> sent.value == old(Payload())
      ensures sent.None? ==> formError == old(Validate())
      ensures sent.Some? ==> formError == failure
      ensures primaryDate == old(primaryDate) && days == old(days) && tab == old(tab)
      ensures time == old(time) && dentistId == old(dentistId)
      ensures sent.None? || failure.Some? ==> serviceIds == old(serviceIds) && otherServices == old(otherServices)
      ensures sent.None? || failure.Some? ==> otherInput == old(otherInput) && note == old(note)
      ensures sent.None? || failure.Some? ==> patient == old(patient) && walkinNameTh == old(walkinNameTh)
      ensures sent.None? || failure.Some? ==> walkinNameEn == old(walkinNameEn) && walkinPhone == old(walkinPhone)
      ensures sent.Some? && failure.None? ==> serviceIds == [] && otherServices == [] && note == []
      ensures sent.Some? && failure.None? ==> otherInput == []
      ensures sent.Some? && failure.None? && tab == Existing ==> patient.None? && walkinNameTh == old(walkinNameTh)
      ensures sent.Some? && failure.None? && tab == Existing ==> walkinNameEn == old(walkinNameEn) && walkinPhone == old(walkinPhone)
      ensures sent.Some? && failure.None? && tab == Walkin ==> patient == old(patient)
      ensures sent.Some? && failure.None? && tab == Walkin ==> walkinNameTh == [] && walkinNameEn == [] && walkinPhone == []
    {
      var e := Validate();
      if e.Some? {
        formError := e;
        sent := None;
        return;
      }
      sent := Some(Payload());
      formError := failure;
      if failure.None? {
        ResetAfterCreate();
      }
    }
  }
}
