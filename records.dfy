/** The rows the client receives from the database and the reference data
    it shows next to them. Nullable columns are `Option`s. */
module Records {
  import opened Wrappers

  datatype Status = Booked | Cancelled

  /** A row of the schedule listing (`ScheduleBooking`): one booking with
      its patient, dentist and service names already joined in. */
  datatype Booking = Booking(
    id: string,
    date: string,
    time: string,
    status: Status,
    isDeleted: bool,
    patientId: Option<string>,
    hn: Option<string>,
    patientNameTh: Option<string>,
    patientNameEn: Option<string>,
    walkinNameTh: Option<string>,
    walkinNameEn: Option<string>,
    walkinPhone: Option<string>,
    dentistId: Option<string>,
    dentistName: Option<string>,
    dentistCode: Option<string>,
    serviceIds: Option<seq<string>>,
    serviceNames: seq<string>,
    otherServices: Option<seq<string>>,
    note: Option<string>)

  /** The embedded patient of a booking row; `searchText` is the column
      the search filter looks at. */
  datatype PatientJoin = PatientJoin(nameTh: Option<string>, nameEn: Option<string>, searchText: Option<string>)

  /** One `booking_services` entry: the service id and, when the service
      row could be joined, its Thai name. */
  datatype BookingService = BookingService(serviceId: string, name: Option<string>)

  /** A row of the manage and summary listings (`ManageRow`). */
  datatype Row = Row(
    id: string,
    date: string,
    time: string,
    status: Status,
    isDeleted: bool,
    hn: Option<string>,
    walkinNameTh: Option<string>,
    walkinNameEn: Option<string>,
    walkinPhone: Option<string>,
    note: Option<string>,
    otherServices: Option<seq<string>>,
    dentistId: Option<string>,
    dentistName: Option<string>,
    patient: Option<PatientJoin>,
    bookingServices: Option<seq<BookingService>>)

  /** A search result of the patient picker (`PatientLite`). */
  datatype Patient = Patient(id: string, hn: string, nameTh: Option<string>, nameEn: Option<string>, phone: Option<string>)

  datatype Service = Service(id: string, nameTh: string, isActive: bool)

  datatype Dentist = Dentist(id: string, code: string, name: string, phone: Option<string>, isActive: bool)

  /** The per-slot capacities of `booking_settings`. */
  datatype Settings = Settings(perDentist: int, unassigned: int)

  /** A booking that takes up capacity: not cancelled and not deleted. */
  predicate IsLive(b: Booking) {
    b.status != Cancelled && !b.isDeleted
  }
}
