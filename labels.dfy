/** How a booking is named on screen. The manage and summary rows pick
    names with `||` and decide on the HN; the timetable cards and the edit
    sheet pick names with `??` and decide on the patient id. The two differ
    only on empty strings. */
module Labels {
  import opened Wrappers
  import opened Text
  import opened Seqs
  import opened Records

  /** `a || b || ""`: the first non-empty value. */
  function FirstTruthy(a: Option<string>, b: Option<string>): (r: string)
    ensures Truthy(a) ==> r == a.value
    ensures !Truthy(a) && Truthy(b) ==> r == b.value
    ensures !Truthy(a) && !Truthy(b) ==> r == []
  {
    OrElse(OrElse(a, b), Some([])).value
  }

  /** `a ?? b ?? ""`: the first value that is not null. */
  function FirstNonNull(a: Option<string>, b: Option<string>): (r: string)
    ensures a.Some? ==> r == a.value
    ensures a.None? && b.Some? ==> r == b.value
    ensures a.None? && b.None? ==> r == []
  {
    Coalesce(Coalesce(a, b), Some([])).value
  }

  /** The two ways of picking a name disagree exactly when the first value
      is the empty string and the second is a non-empty one. */
  lemma NameChoiceDiffers(a: Option<string>, b: Option<string>)
    ensures FirstTruthy(a, b) != FirstNonNull(a, b) <==> a == Some([]) && Truthy(b)
  {
  }

  const NoHn: string := "No HN - "

  /** The patient name a list row shows: `name_th || name_en || ""` of
      the joined patient, empty when there is none. */
  function RowPatientName(r: Row): string {
    if r.patient.Some? then FirstTruthy(r.patient.value.nameTh, r.patient.value.nameEn) else []
  }

  /** `rowPatientLabel` of the manage and summary pages: for a row with an
      HN, the HN and the patient's name joined by a space with the outer
      white space dropped; otherwise "No HN - " and the trimmed walk-in
      name. */
  function RowPatientLabel(r: Row): (text: string)
    ensures Truthy(r.hn) ==> text == JoinWords(r.hn.value, RowPatientName(r)) && IsTrimmed(text)
    ensures !Truthy(r.hn) ==> |text| >= |NoHn| && text[..|NoHn|] == NoHn
    ensures !Truthy(r.hn) ==> text[|NoHn|..] == Trim(FirstTruthy(r.walkinNameTh, r.walkinNameEn))
  {
    if Truthy(r.hn) then
      TrimJoinWords(r.hn.value, RowPatientName(r));
      Trim(r.hn.value + " " + RowPatientName(r))
    else
      var walkin := Trim(FirstTruthy(r.walkinNameTh, r.walkinNameEn));
      assert (NoHn + walkin)[|NoHn|..] == walkin;
      NoHn + walkin
  }

  /** `booking.hn ?? ""`. */
  function CardHn(b: Booking): string {
    if b.hn.Some? then b.hn.value else []
  }

  /** The patient label of a timetable card and of the edit sheet: for a
      registered patient the HN and the trimmed name joined by a space with
      the outer white space dropped; otherwise "No HN - " and the trimmed
      walk-in name. Names are picked with `??`. */
  function BookingPatientLabel(b: Booking): (text: string)
    ensures Truthy(b.patientId) ==>
      text == JoinWords(CardHn(b), Trim(FirstNonNull(b.patientNameTh, b.patientNameEn))) && IsTrimmed(text)
    ensures !Truthy(b.patientId) ==> |text| >= |NoHn| && text[..|NoHn|] == NoHn
    ensures !Truthy(b.patientId) ==> text[|NoHn|..] == Trim(FirstNonNull(b.walkinNameTh, b.walkinNameEn))
  {
    if Truthy(b.patientId) then
      var name := Trim(FirstNonNull(b.patientNameTh, b.patientNameEn));
      TrimJoinWords(CardHn(b), name);
      Trim(CardHn(b) + " " + name)
    else
      var walkin := Trim(FirstNonNull(b.walkinNameTh, b.walkinNameEn));
      assert (NoHn + walkin)[|NoHn|..] == walkin;
      NoHn + walkin
  }

  /** The same walk-in, with an empty Thai name and a non-blank English
      one, is shown as "No HN - " with no name on a card and with the
      English name in a list row. */
  lemma WalkinLabelsDiffer(b: Booking, r: Row)
    requires !Truthy(b.patientId) && !Truthy(r.hn)
    requires b.walkinNameTh == Some([]) && r.walkinNameTh == Some([])
    requires b.walkinNameEn == r.walkinNameEn && b.walkinNameEn.Some? && !AllSpace(b.walkinNameEn.value)
    ensures BookingPatientLabel(b) == NoHn
    ensures RowPatientLabel(r) == NoHn + Trim(b.walkinNameEn.value) && RowPatientLabel(r) != NoHn
  {
    assert FirstNonNull(b.walkinNameTh, b.walkinNameEn) == [];
    assert AllSpace([]);
    var cardText := BookingPatientLabel(b);
    assert cardText == cardText[..|NoHn|] + cardText[|NoHn|..];
    assert FirstTruthy(r.walkinNameTh, r.walkinNameEn) == b.walkinNameEn.value;
    var rowText := RowPatientLabel(r);
    assert rowText == rowText[..|NoHn|] + rowText[|NoHn|..];
    assert Trim(b.walkinNameEn.value) != [];
  }

  /** `rowDentistLabel`: the dentist's name, or "Unassigned". A dentist
      actually named "Unassigned" cannot be told apart from no dentist. */
  function RowDentistLabel(r: Row): (text: string)
    ensures r.dentistName.Some? ==> text == r.dentistName.value
    ensures text == "Unassigned" <==> r.dentistName == None || r.dentistName == Some("Unassigned")
  {
    if r.dentistName.Some? then r.dentistName.value else "Unassigned"
  }

  predicate HasName(s: BookingService) {
    s.name.Some? && s.name.value != []
  }

  /** `bs.services?.name_th`, with "" for a missing name. */
  function NameOf(s: BookingService): string {
    if s.name.Some? then s.name.value else []
  }

  function HasNameOf(): BookingService -> bool {
    s => HasName(s)
  }

  /** The non-empty names of the services, in order: name `i` is the name
      of the `i`-th named service. */
  function Names(services: seq<BookingService>): (r: seq<string>)
    ensures |r| == Count(services, HasNameOf())
    ensures forall i :: 0 <= i < |r| ==> r[i] == NameOf(Filter(services, HasNameOf())[i]) && r[i] != []
    ensures forall s :: s in services && HasName(s) ==> s.name.value in r
  {
    var named := Filter(services, HasNameOf());
    assert forall i :: 0 <= i < |named| ==> HasName(named[i]) by {
      forall i | 0 <= i < |named| ensures HasName(named[i]) {
        assert named[i] in named;
      }
    }
    var r := seq(|named|, i requires 0 <= i < |named| => named[i].name.value);
    assert forall s :: s in services && HasName(s) ==> s.name.value in r by {
      forall s | s in services && HasName(s) ensures s.name.value in r {
        assert s in named;
        var i :| 0 <= i < |named| && named[i] == s;
        assert r[i] == s.name.value;
      }
    }
    r
  }

  /** One service contributes its name exactly when it has a non-empty one. */
  lemma NamesSingleton(s: BookingService)
    ensures Names([s]) == if HasName(s) then [s.name.value] else []
  {
    FilterSingleton(s, HasNameOf());
  }

  /** The names of two lists of services one after the other are the names
      of the first followed by those of the second: `map` and `filter`
      keep the order of the services. */
  lemma NamesAppend(a: seq<BookingService>, b: seq<BookingService>)
    ensures Names(a + b) == Names(a) + Names(b)
  {
    FilterAppend(a, b, HasNameOf());
  }

  /** `serviceNames`: the Thai names of a row's services in the row's
      order, missing and empty names left out. */
  function ServiceNames(r: Row): (names: seq<string>)
    ensures r.bookingServices.None? ==> names == []
    ensures var services := r.bookingServices.GetOr([]);
      |names| == Count(services, HasNameOf())
      && forall i :: 0 <= i < |names| ==> names[i] == NameOf(Filter(services, HasNameOf())[i]) && names[i] != []
  {
    Names(r.bookingServices.GetOr([]))
  }

  /** The label of the patient picker's button: a placeholder, or the
      patient's HN and name (`name_th || name_en`) joined by a space with
      the outer white space dropped. */
  function PickerLabel(p: Option<Patient>): (text: string)
    ensures p.None? ==> text == "Search HN / name..."
    ensures p.Some? ==> text == JoinWords(p.value.hn, FirstTruthy(p.value.nameTh, p.value.nameEn)) && IsTrimmed(text)
  {
    match p
    case None => "Search HN / name..."
    case Some(v) =>
      TrimJoinWords(v.hn, FirstTruthy(v.nameTh, v.nameEn));
      Trim(v.hn + " " + FirstTruthy(v.nameTh, v.nameEn))
  }
}
