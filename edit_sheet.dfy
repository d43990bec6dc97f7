/** The edit sheet of one booking: the form it loads from the booking, the
    update request it sends back, and the cancel and delete requests. */
module EditSheet {
  import opened Wrappers
  import opened Text
  import opened Time
  import opened Records
  import Labels
  import OtherServices

  const NoBookingSelected: string := "No booking selected"

  /** The editable fields of the sheet. */
  datatype EditFields = EditFields(
    dentistId: string,
    date: string,
    time: string,
    serviceIds: seq<string>,
    otherServices: seq<string>,
    note: string)

  /** The arguments of the update request. */
  datatype UpdatePayload = UpdatePayload(
    bookingId: string,
    dentistId: Option<string>,
    bookingDate: string,
    bookingTime: string,
    serviceIds: seq<string>,
    otherServices: Option<seq<string>>,
    note: Option<string>)

  /** `initial`: the form a booking loads into; nothing without a booking.
      Missing values become empty, the stored time is shown as `HH:mm`. */
  function Initial(booking: Option<Booking>): (r: Option<EditFields>)
    ensures r.None? <==> booking.None?
    ensures r.Some? ==> r.value.date == booking.value.date
    ensures r.Some? ==> r.value.dentistId == (if booking.value.dentistId.Some? then booking.value.dentistId.value else [])
    ensures r.Some? ==> r.value.time == DbTimeToHHmm(booking.value.time) && r.value.time <= booking.value.time
    ensures r.Some? ==> r.value.serviceIds == (if booking.value.serviceIds.Some? then booking.value.serviceIds.value else [])
    ensures r.Some? ==> r.value.otherServices == (if booking.value.otherServices.Some? then booking.value.otherServices.value else [])
    ensures r.Some? ==> r.value.note == (if booking.value.note.Some? then booking.value.note.value else [])
  {
    match booking
    case None => None
    case Some(b) =>
      Some(EditFields(
        b.dentistId.GetOr([]),
        b.date,
        DbTimeToHHmm(b.time),
        b.serviceIds.GetOr([]),
        b.otherServices.GetOr([]),
        b.note.GetOr([])))
  }

  /** The update request for booking `id` from the form: an empty dentist
      is unassigned, other services and note are trimmed with blanks
      dropped, the time is sent in storage form. */
  function PayloadOf(id: string, f: EditFields): (p: UpdatePayload)
    ensures p.bookingId == id && p.bookingDate == f.date && p.serviceIds == f.serviceIds
    ensures p.dentistId.None? <==> f.dentistId == []
    ensures p.dentistId.Some? ==> p.dentistId.value == f.dentistId
    ensures p.bookingTime == TimeToDb(f.time)
    ensures IsHHmm(f.time) ==> IsStorageTime(p.bookingTime) && DbTimeToHHmm(p.bookingTime) == f.time
    ensures p.otherServices == OtherServices.Payload(f.otherServices)
    ensures p.note.None? <==> AllSpace(f.note)
    ensures p.note.Some? ==> p.note.value == Trim(f.note)
  {
    DisplayRoundTrip(f.time);
    assert IsHHmm(f.time) ==> TimeToDb(f.time)[..5] == f.time;
    UpdatePayload(
      id,
      if f.dentistId == [] then None else Some(f.dentistId),
      f.date,
      TimeToDb(f.time),
      f.serviceIds,
      OtherServices.Payload(f.otherServices),
      TrimOrNull(f.note))
  }

  /** Saving a booking without touching the form sends back its date, its
      services and its dentist, and its time exactly when the time is
      stored as `HH:mm:00`, as every time booked from the slot grid is. */
  lemma UnchangedSave(b: Booking)
    ensures var p := PayloadOf(b.id, Initial(Some(b)).value);
      && p.bookingId == b.id && p.bookingDate == b.date
      && p.serviceIds == b.serviceIds.GetOr([])
      && (b.dentistId != Some([]) ==> p.dentistId == b.dentistId)
      && (p.bookingTime == b.time <==> |b.time| == 8 && b.time[5..] == ":00")
  {
    var f := Initial(Some(b)).value;
    assert f.date == b.date && f.serviceIds == b.serviceIds.GetOr([]);
    assert f.time == DbTimeToHHmm(b.time);
    var p := PayloadOf(b.id, f);
    assert p.bookingTime == TimeToDb(f.time);
    StorageRoundTrip(b.time);
  }

  /** Saving an untouched form whose other services and note are already
      clean sends them back unchanged. */
  lemma UnchangedSaveTexts(b: Booking)
    requires b.otherServices.Some? && b.otherServices.value != [] && OtherServices.Clean(b.otherServices.value)
    requires b.note.Some? && b.note.value != [] && IsTrimmed(b.note.value)
    ensures PayloadOf(b.id, Initial(Some(b)).value).otherServices == b.otherServices
    ensures PayloadOf(b.id, Initial(Some(b)).value).note == b.note
  {
    OtherServices.NormalizeClean(b.otherServices.value);
  }

  /** The Cancel button is enabled only while no cancel is in flight and
      the booking is not already cancelled; Update and Delete have no
      status guard. */
  predicate CancelEnabled(pending: bool, b: Booking) {
    !pending && b.status != Cancelled
  }

  class Sheet {
    var open: bool
    var booking: Option<Booking>
    var error: Option<string>
    var dentistId: string
    var date: string
    var time: string
    var serviceIds: seq<string>
    var otherServices: seq<string>
    var otherInput: string
    var note: string

    constructor ()
      ensures !open && booking.None? && error.None?
      ensures dentistId == [] && date == [] && time == [] && serviceIds == []
      ensures otherServices == [] && otherInput == [] && note == []
    {
      open, booking, error := false, None, None;
      dentistId, date, time := [], [], [];
      serviceIds, otherServices := [], [];
      otherInput, note := [], [];
    }

    /** The form as it stands. */
    function Fields(): (f: EditFields)
      reads this
      ensures f.dentistId == dentistId && f.date == date && f.time == time
      ensures f.serviceIds == serviceIds && f.otherServices == otherServices && f.note == note
    {
      EditFields(dentistId, date, time, serviceIds, otherServices, note)
    }

    /** The reset effect, run whenever the booking or `open` changes: the
        error is cleared; with a booking, every field is loaded from it and
        the other-service box is emptied; without one the fields stay. */
    method Reset()
      modifies this
      ensures error.None? && open == old(open) && booking == old(booking)
      ensures booking.Some? ==> Fields() == Initial(booking).value && otherInput == []
      ensures booking.None? ==> Fields() == old(Fields()) && otherInput == old(otherInput)
    {
      error := None;
      var init := Initial(booking);
      if init.None? {
        return;
      }
      var f := init.value;
      dentistId, date, time := f.dentistId, f.date, f.time;
      serviceIds, otherServices := f.serviceIds, f.otherServices;
      otherInput := [];
      note := f.note;
    }

    /** Opening the sheet on a booking of the timetable or the manage list. */
    method Show(b: Booking)
      modifies this
      ensures open && booking == Some(b) && error.None?
      ensures Fields() == Initial(Some(b)).value && otherInput == []
    {
      booking, open := Some(b), true;
      Reset();
    }

    /** The request Update sends, or the error it fails with. */
    function UpdateRequest(): (r: Result<UpdatePayload, string>)
      reads this
      ensures r.Failure? <==> booking.None?
      ensures r.Failure? ==> r.error == NoBookingSelected
      ensures r.Success? ==> r.value == PayloadOf(booking.value.id, Fields())
    {
      match booking
      case None => Failure(NoBookingSelected)
      case Some(b) => Success(PayloadOf(b.id, Fields()))
    }

    /** The booking id Cancel or Delete sends, or the error they fail with. */
    function TargetId(): (r: Result<string, string>)
      reads this
      ensures r.Failure? <==> booking.None?
      ensures r.Failure? ==> r.error == NoBookingSelected
      ensures r.Success? ==> r.value == booking.value.id
    {
      match booking
      case None => Failure(NoBookingSelected)
      case Some(b) => Success(b.id)
    }

    /** Running one of the three requests: without a booking the error is
        "No booking selected" and nothing is sent; otherwise the request is
        sent, and `failure`, the message of a rejected request, is shown,
        or the sheet closes when it succeeded. The form is not touched. */
    method Finish(hasBooking: bool, failure: Option<string>)
      modifies this`error, this`open
      ensures !hasBooking ==> error == Some(NoBookingSelected) && open == old(open)
      ensures hasBooking ==> error == failure
      ensures hasBooking ==> open == (old(open) && failure.Some?)
    {
      if !hasBooking {
        error := Some(NoBookingSelected);
      } else {
        error := failure;
        if failure.None? {
          open := false;
        }
      }
    }

    /** Update. */
    method Update(failure: Option<string>) returns (sent: Option<UpdatePayload>)
      modifies this`error, this`open
      ensures sent.Some? <==> old(booking).Some?
      ensures sent.Some? ==> sent.value == old(UpdateRequest()).value
      ensures sent.None? ==> error == Some(NoBookingSelected)
      ensures sent.Some? ==> error == failure && open == (old(open) && failure.Some?)
    {
      var r := UpdateRequest();
      sent := if r.Success? then Some(r.value) else None;
      Finish(r.Success?, failure);
    }

    /** Cancel: sends the booking id. The button that calls it is
        `PressCancel`. */
    method Cancel(failure: Option<string>) returns (sent: Option<string>)
      modifies this`error, this`open
      ensures sent.Some? <==> old(booking).Some?
      ensures sent.Some? ==> sent.value == old(booking).value.id
      ensures sent.None? ==> error == Some(NoBookingSelected)
      ensures sent.Some? ==> error == failure && open == (old(open) && failure.Some?)
    {
      var r := TargetId();
      sent := if r.Success? then Some(r.value) else None;
      Finish(r.Success?, failure);
    }

    /** The Cancel button. The sheet shows its buttons only for a booking;
        Cancel is disabled while a cancel is in flight and on a booking that
        is already cancelled. A disabled button sends nothing and changes
        nothing; an enabled one runs `Cancel`. */
    method PressCancel(pending: bool, failure: Option<string>) returns (sent: Option<string>)
      modifies this`error, this`open
      ensures sent.Some? <==> old(booking).Some? && CancelEnabled(pending, old(booking).value)
      ensures old(booking).Some? && old(booking).value.status == Cancelled ==> sent.None?
      ensures sent.Some? ==> sent.value == old(booking).value.id
      ensures sent.Some? ==> error == failure && open == (old(open) && failure.Some?)
      ensures sent.None? ==> error == old(error) && open == old(open)
    {
      if booking.Some? && CancelEnabled(pending, booking.value) {
        sent := Cancel(failure);
      } else {
        sent := None;
      }
    }

    /** Delete (soft): sends the booking id; no status guard. */
    method Delete(failure: Option<string>) returns (sent: Option<string>)
      modifies this`error, this`open
      ensures sent.Some? <==> old(booking).Some?
      ensures sent.Some? ==> sent.value == old(booking).value.id
      ensures sent.None? ==> error == Some(NoBookingSelected)
      ensures sent.Some? ==> error == failure && open == (old(open) && failure.Some?)
    {
      var r := TargetId();
      sent := if r.Success? then Some(r.value) else None;
      Finish(r.Success?, failure);
    }

    /** The Add button or Enter in the other-service box. */
    method AddOtherService()
      modifies this`otherServices, this`otherInput
      ensures (otherServices, otherInput) == OtherServices.Add(old(otherServices), old(otherInput))
      ensures old(OtherServices.Clean(otherServices) && OtherServices.UniqueIgnoringCase(otherServices)) ==>
        OtherServices.Clean(otherServices) && OtherServices.UniqueIgnoringCase(otherServices)
    {
      if OtherServices.Clean(otherServices) && OtherServices.UniqueIgnoringCase(otherServices) {
        OtherServices.AddKeepsInvariant(otherServices, otherInput);
      }
      var r := OtherServices.Add(otherServices, otherInput);
      otherServices, otherInput := r.0, r.1;
    }

    /** The remove button of an other service. */
    method RemoveOtherService(s: string)
      modifies this`otherServices
      ensures otherServices == OtherServices.Remove(old(otherServices), s)
      ensures old(OtherServices.Clean(otherServices) && OtherServices.UniqueIgnoringCase(otherServices)) ==>
        OtherServices.Clean(otherServices) && OtherServices.UniqueIgnoringCase(otherServices)
    {
      if OtherServices.Clean(otherServices) && OtherServices.UniqueIgnoringCase(otherServices) {
        OtherServices.RemoveKeepsInvariant(otherServices, s);
      }
      otherServices := OtherServices.Remove(otherServices, s);
    }
  }
}
