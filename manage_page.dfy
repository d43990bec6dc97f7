/** The manage page: the filter bar and its page number, the clamped Prev
    and Next buttons, the row status badge and the lookup that opens the
    edit sheet on a listed booking. */
module ManagePage {
  import opened Wrappers
  import opened Text
  import opened Records
  import opened Seqs
  import opened Queries

  const PageSize: nat := 20

  /** `ceil(total / size)` for sizes above zero. */
  lemma CeilDiv(total: nat, size: nat)
    requires size > 0
    ensures ((total + size - 1) / size) * size >= total
    ensures total > 0 ==> ((total + size - 1) / size) * size < total + size
    ensures total > 0 ==> (total + size - 1) / size >= 1
    ensures total == 0 ==> (total + size - 1) / size == 0
  {
    var n := total + size - 1;
    var pages := n / size;
    assert n == pages * size + n % size && 0 <= n % size < size;
  }

  lemma MulMonotone(a: nat, b: nat, c: nat)
    requires a <= b
    ensures a * c <= b * c
    decreases c
  {
    if c > 0 {
      MulMonotone(a, b, c - 1);
      assert a * c == a * (c - 1) + a && b * c == b * (c - 1) + b;
    }
  }

  /** A position below `k` pages lies on a page before page `k`. */
  lemma DivBelow(i: nat, size: nat, k: nat)
    requires size > 0 && i < k * size
    ensures i / size < k
  {
    var d := i / size;
    assert i == d * size + i % size;
    if d >= k {
      MulMonotone(k, d, size);
    }
  }

  /** `maxPage`: the last page that can hold a row, counting from 0; page 0
      when there is nothing. Every page before it is full and it holds the
      last row. */
  function MaxPage(total: nat, size: nat): (r: nat)
    requires size > 0
    ensures total == 0 ==> r == 0
    ensures total > 0 ==> r * size < total <= (r + 1) * size
  {
    CeilDiv(total, size);
    var pages := (total + size - 1) / size;
    if pages >= 1 then pages - 1 else 0
  }

  /** The row at position `i` of the result lies on a page no later than
      `maxPage`, so clamping Next never hides a row. */
  lemma RowPageWithinMax(total: nat, size: nat, i: nat)
    requires size > 0 && i < total
    ensures PageNumber(i, size) <= MaxPage(total, size)
  {
    DivBelow(i, size, MaxPage(total, size) + 1);
  }

  /** A page after the last starts at or past the end of the result. */
  lemma PastMaxOffset(total: nat, size: nat, page: nat)
    requires size > 0 && page > MaxPage(total, size)
    ensures Offset(page, size) >= total
  {
    var last := MaxPage(total, size);
    MulMonotone(last + 1, page, size);
    assert total <= (last + 1) * size;
  }

  /** All matching rows, ordered, number the total the list reports. */
  lemma MatchesTotal(q: ManageQuery, table: seq<Row>)
    ensures |ManageMatches(q, table)| == ManageList(q, table).total
  {
    var all := ManageMatches(q, table);
    assert |multiset(all)| == |multiset(Filter(table, ManageMatchOf(q)))|;
  }

  /** The last page is never empty when some row matches. */
  lemma MaxPageHoldsRows(q: ManageQuery, table: seq<Row>)
    requires q.pageSize > 0
    ensures var total := ManageList(q, table).total;
      total > 0 ==> ManageList(q.(page := MaxPage(total, q.pageSize)), table).rows != []
  {
    var total := ManageList(q, table).total;
    MatchesTotal(q, table);
    ManageListPage(q, table, MaxPage(total, q.pageSize));
  }

  /** Every page after the last is empty. */
  lemma PastMaxPageEmpty(q: ManageQuery, table: seq<Row>, page: nat)
    requires q.pageSize > 0
    requires page > MaxPage(ManageList(q, table).total, q.pageSize)
    ensures ManageList(q.(page := page), table).rows == []
  {
    MatchesTotal(q, table);
    PastMaxOffset(ManageList(q, table).total, q.pageSize, page);
    ManageListPage(q, table, page);
  }

  /** The request the page sends: an empty dentist choice is no dentist
      filter; status, search and the deleted flag are always sent. */
  function Request(dateFrom: string, dateTo: string, dentistId: string, status: StatusFilter,
                   q: string, includeDeleted: bool, page: nat): (r: ManageQuery)
    ensures r.page == page && r.pageSize == PageSize
    ensures r.dentistId.None? <==> dentistId == []
    ensures r.dentistId.Some? ==> r.dentistId.value == dentistId
  {
    ManageQuery(dateFrom, dateTo, if dentistId == [] then None else Some(dentistId),
      Some(status), Some(q), Some(includeDeleted), page, PageSize)
  }

  /** The rows the page lists are those in the date range, not deleted
      unless asked for, of the chosen dentist when one is chosen, of the
      chosen status, and matching the search when it has two characters. */
  lemma RequestMatch(dateFrom: string, dateTo: string, dentistId: string, status: StatusFilter,
                     q: string, includeDeleted: bool, page: nat, r: Row)
    ensures ManageMatch(Request(dateFrom, dateTo, dentistId, status, q, includeDeleted, page), r) <==>
      && InRange(r.date, dateFrom, dateTo)
      && (includeDeleted || !r.isDeleted)
      && (dentistId != [] ==> r.dentistId == Some(dentistId))
      && (status == OnlyBooked ==> r.status == Booked)
      && (status == OnlyCancelled ==> r.status == Cancelled)
      && (|Trim(q)| >= 2 ==> SearchMatch(r, Lower(Trim(q))))
  {
    var req := Request(dateFrom, dateTo, dentistId, status, q, includeDeleted, page);
    assert Truthy(req.dentistId) <==> dentistId != [];
    assert SearchTerm(req.q).Some? <==> |Trim(q)| >= 2;
  }

  /** The badge of the status column: a deleted row shows Deleted whatever
      its status. */
  function StatusBadge(r: Row): (badge: string)
    ensures badge == "Deleted" <==> r.isDeleted
    ensures badge == "Cancelled" <==> !r.isDeleted && r.status == Cancelled
    ensures badge == "Booked" <==> !r.isDeleted && r.status.Booked?
  {
    if r.isDeleted then "Deleted"
    else if r.status == Cancelled then "Cancelled"
    else "Booked"
  }

  /** `bookings.find(x => x.id === id)`: the position of the first booking
      with that id. */
  function FindIndex(bookings: seq<Booking>, id: string): (r: Option<nat>)
    ensures r.None? <==> forall j :: 0 <= j < |bookings| ==> bookings[j].id != id
    ensures r.Some? ==> r.value < |bookings| && bookings[r.value].id == id
    ensures r.Some? ==> forall j :: 0 <= j < r.value ==> bookings[j].id != id
  {
    if bookings == [] then None
    else if bookings[0].id == id then Some(0)
    else
      match FindIndex(bookings[1..], id)
      case None => None
      case Some(i) => Some(i + 1)
  }

  /** The booking `openEdit` selects: the first with that id in the range
      list, or none. */
  function FindById(bookings: seq<Booking>, id: string): (r: Option<Booking>)
    ensures r.None? <==> forall b :: b in bookings ==> b.id != id
    ensures r.Some? ==> r.value in bookings && r.value.id == id
  {
    match FindIndex(bookings, id)
    case None => None
    case Some(i) => Some(bookings[i])
  }

  /** When ids are unique the selected booking is the one with that id. */
  lemma FindByUniqueId(bookings: seq<Booking>, b: Booking)
    requires forall i, j :: 0 <= i < j < |bookings| ==> bookings[i].id != bookings[j].id
    requires b in bookings
    ensures FindById(bookings, b.id) == Some(b)
  {
  }

  /** The filter bar, the page number and the booking opened in the edit
      sheet. */
  class ManageFilters {
    var dateFrom: string
    var dateTo: string
    var dentistId: string
    var status: StatusFilter
    var q: string
    var includeDeleted: bool
    var page: nat
    var editOpen: bool
    var selected: Option<Booking>

    /** Both dates start at today; everything else is unfiltered. */
    constructor (today: string)
      ensures dateFrom == today && dateTo == today && dentistId == [] && status == AllStatuses
      ensures q == [] && !includeDeleted && page == 0 && !editOpen && selected.None?
    {
      dateFrom, dateTo, dentistId, status := today, today, [], AllStatuses;
      q, includeDeleted, page := [], false, 0;
      editOpen, selected := false, None;
    }

    /** The list is fetched only when both dates are filled in. */
    predicate Enabled()
      reads this
    {
      dateFrom != [] && dateTo != []
    }

    /** The request the list query sends, or none while it is disabled
        for want of a date. */
    function Fetch(): (r: Option<ManageQuery>)
      reads this
      ensures r.Some? <==> dateFrom != [] && dateTo != []
      ensures r.Some? ==> r.value == Query() && r.value.page == page && r.value.pageSize == PageSize
    {
      if Enabled() then Some(Query()) else None
    }

    function Query(): (r: ManageQuery)
      reads this
      ensures r == Request(dateFrom, dateTo, dentistId, status, q, includeDeleted, page)
    {
      Request(dateFrom, dateTo, dentistId, status, q, includeDeleted, page)
    }

    method SetDateFrom(v: string)
      modifies this`dateFrom, this`page
      ensures dateFrom == v && page == 0
    {
      dateFrom, page := v, 0;
    }

    method SetDateTo(v: string)
      modifies this`dateTo, this`page
      ensures dateTo == v && page == 0
    {
      dateTo, page := v, 0;
    }

    method SetSearch(v: string)
      modifies this`q, this`page
      ensures q == v && page == 0
    {
      q, page := v, 0;
    }

    method SetDentist(v: string)
      modifies this`dentistId, this`page
      ensures dentistId == v && page == 0
    {
      dentistId, page := v, 0;
    }

    method SetStatus(v: StatusFilter)
      modifies this`status, this`page
      ensures status == v && page == 0
    {
      status, page := v, 0;
    }

    method SetIncludeDeleted(v: bool)
      modifies this`includeDeleted, this`page
      ensures includeDeleted == v && page == 0
    {
      includeDeleted, page := v, 0;
    }

    predicate PrevDisabled()
      reads this
    {
      page <= 0
    }

    /** Next is disabled from the last page on; while it is enabled the
        next page starts before the end of the result, so it holds rows. */
    predicate NextDisabled(total: nat): (r: bool)
      reads this
      ensures !r ==> page + 1 <= MaxPage(total, PageSize) && Offset(page + 1, PageSize) < total
    {
      var last := MaxPage(total, PageSize);
      if page >= last then true
      else
        MulMonotone(page + 1, last, PageSize);
        false
    }

    /** Prev: one page back, never below the first. */
    method Prev()
      modifies this`page
      ensures old(page) > 0 ==> page == old(page) - 1
      ensures old(page) == 0 ==> page == 0
    {
      page := if page >= 1 then page - 1 else 0;
    }

    /** Next: one page on, never past the last page of the current total;
        a page left beyond it by a shrunken total is pulled back to it. */
    method Next(total: nat)
      modifies this`page
      ensures page <= MaxPage(total, PageSize)
      ensures old(page) < MaxPage(total, PageSize) ==> page == old(page) + 1
      ensures old(page) >= MaxPage(total, PageSize) ==> page == MaxPage(total, PageSize)
    {
      var last := MaxPage(total, PageSize);
      page := if page + 1 <= last then page + 1 else last;
    }

    /** `openEdit`: select the listed booking with that id, or none, and
        open the sheet. */
    method OpenEdit(id: string, rangeBookings: seq<Booking>)
      modifies this`selected, this`editOpen
      ensures selected == FindById(rangeBookings, id) && editOpen
    {
      selected := FindById(rangeBookings, id);
      editOpen := true;
    }
  }
}
