/** The two listing queries of the manage and summary pages. Each builds a
    query step by step, narrowing it under conditions; what it denotes is a
    condition on rows, an order and, for the manage list, a page. Here the
    table is a sequence of rows and the query a filter, sort and slice over
    it. */
module Queries {
  import opened Wrappers
  import opened Text
  import opened Seqs
  import opened StrOrder
  import opened Sorting
  import opened Records

  /** `dateFrom <= booking_date <= dateTo`, comparing ISO strings. */
  predicate InRange(date: string, dateFrom: string, dateTo: string) {
    LessEq(dateFrom, date) && LessEq(date, dateTo)
  }

  /** `ORDER BY booking_date, booking_time`. */
  predicate RowLeq(a: Row, b: Row) {
    Less(a.date, b.date) || (a.date == b.date && LessEq(a.time, b.time))
  }

  function RowOrder(): (Row, Row) -> bool {
    (a: Row, b: Row) => RowLeq(a, b)
  }

  /** Date then time is a total preorder on rows, so rows can be sorted by it. */
  lemma RowOrderTotal()
    ensures TotalPreorder(RowOrder())
  {
    LessEqTotalOrder();
    forall a: Row, b: Row ensures RowLeq(a, b) || RowLeq(b, a) {
      LessTrichotomy(a.date, b.date);
    }
    forall a: Row, b: Row, c: Row | RowLeq(a, b) && RowLeq(b, c) ensures RowLeq(a, c) {
      if Less(a.date, b.date) && Less(b.date, c.date) {
        LessTransitive(a.date, b.date, c.date);
      }
    }
  }

  /** `.range(from, to)`: the rows at positions `from` to `from + size - 1`
      that exist. */
  function Page<T>(s: seq<T>, from: nat, size: nat): (r: seq<T>)
    ensures |r| <= size
    ensures |r| == if from >= |s| then 0 else if |s| - from < size then |s| - from else size
    ensures forall i :: 0 <= i < |r| ==> r[i] == s[from + i]
    ensures forall x :: x in r ==> x in s
  {
    if from >= |s| then []
    else if |s| - from < size then s[from..]
    else s[from..from + size]
  }

  /** The position of the first row of page `page`. */
  function Offset(page: nat, size: nat): nat {
    page * size
  }

  /** The page the row at position `i` falls on. */
  function PageNumber(i: nat, size: nat): nat
    requires size > 0
  {
    i / size
  }

  lemma PageAt<T>(s: seq<T>, from: nat, size: nat, k: nat)
    requires from + k < |s| && k < size
    ensures k < |Page(s, from, size)| && Page(s, from, size)[k] == s[from + k]
  {
  }

  /** A page of an ordered sequence is ordered. */
  lemma PageSorted<T>(s: seq<T>, from: nat, size: nat, leq: (T, T) -> bool)
    requires SortedBy(s, leq)
    ensures SortedBy(Page(s, from, size), leq)
  {
    var r := Page(s, from, size);
    forall i, j | 0 <= i < j < |r| ensures leq(r[i], r[j]) {
      assert r[i] == s[from + i] && r[j] == s[from + j];
    }
  }

  // ---------------------------------------------------------------- manage

  datatype StatusFilter = AllStatuses | OnlyBooked | OnlyCancelled

  /** The manage query; absent optional parameters are `None`. */
  datatype ManageQuery = ManageQuery(
    dateFrom: string,
    dateTo: string,
    dentistId: Option<string>,
    status: Option<StatusFilter>,
    q: Option<string>,
    includeDeleted: Option<bool>,
    page: nat,
    pageSize: nat)

  datatype ManageResult = ManageResult(rows: seq<Row>, total: nat)

  predicate IsTrue(o: Option<bool>) {
    o == Some(true)
  }

  /** The search term, when the query is at least two characters once trimmed. */
  function SearchTerm(q: Option<string>): (r: Option<string>)
    ensures r.Some? <==> q.Some? && |Trim(q.value)| >= 2
    ensures r.Some? ==> r.value == Lower(Trim(q.value)) && |r.value| >= 2
  {
    if Truthy(q) && |Trim(q.value)| >= 2 then Some(Lower(Trim(q.value))) else None
  }

  /** `column ILIKE %term%`: a null column never matches. */
  predicate ILike(column: Option<string>, term: string) {
    column.Some? && Contains(Lower(column.value), Lower(term))
  }

  /** The four columns the search looks at. */
  predicate SearchMatch(r: Row, term: string) {
    ILike(r.hn, term) || ILike(r.walkinNameTh, term) || ILike(r.walkinNameEn, term)
    || (r.patient.Some? && ILike(r.patient.value.searchText, term))
  }

  /** Which rows the manage query selects, as one condition. */
  predicate ManageMatch(q: ManageQuery, r: Row) {
    && ManageStatusStage(q, r)
    && (SearchTerm(q.q).Some? ==> SearchMatch(r, SearchTerm(q.q).value))
  }

  /** The conditions of the date range and the deleted flag. */
  predicate ManageDeletedStage(q: ManageQuery, r: Row) {
    && InRange(r.date, q.dateFrom, q.dateTo)
    && (IsTrue(q.includeDeleted) || !r.isDeleted)
  }

  /** ... and the dentist. */
  predicate ManageDentistStage(q: ManageQuery, r: Row) {
    && ManageDeletedStage(q, r)
    && (Truthy(q.dentistId) ==> r.dentistId == q.dentistId)
  }

  /** ... and the status. */
  predicate ManageStatusStage(q: ManageQuery, r: Row) {
    && ManageDentistStage(q, r)
    && (q.status == Some(OnlyBooked) ==> r.status == Booked)
    && (q.status == Some(OnlyCancelled) ==> r.status == Cancelled)
  }

  function ManageDeletedOf(q: ManageQuery): Row -> bool {
    (r: Row) => ManageDeletedStage(q, r)
  }

  function ManageDentistOf(q: ManageQuery): Row -> bool {
    (r: Row) => ManageDentistStage(q, r)
  }

  function ManageStatusOf(q: ManageQuery): Row -> bool {
    (r: Row) => ManageStatusStage(q, r)
  }

  function ManageMatchOf(q: ManageQuery): Row -> bool {
    (r: Row) => ManageMatch(q, r)
  }

  /** Sequences with the same elements, counted, have the same members. */
  lemma SameMembers(a: seq<Row>, b: seq<Row>)
    requires multiset(a) == multiset(b)
    ensures forall x :: x in a <==> x in b
  {
    forall x ensures x in a <==> x in b {
      assert x in a <==> x in multiset(a);
      assert x in b <==> x in multiset(b);
    }
  }

  /** All matching rows of the table, in date and time order. */
  function ManageMatches(q: ManageQuery, table: seq<Row>): (r: seq<Row>)
    ensures SortedBy(r, RowOrder())
    ensures forall x :: x in r <==> x in table && ManageMatch(q, x)
    ensures multiset(r) == multiset(Filter(table, ManageMatchOf(q)))
  {
    RowOrderTotal();
    var matching := Filter(table, ManageMatchOf(q));
    var r := Sort(matching, RowOrder());
    SameMembers(r, matching);
    r
  }

  /** `manageList`: the requested page of the matching rows and the number
      of all matching rows. A page never holds more than `pageSize` rows;
      row `i` of page `p` is row `p * pageSize + i` of the whole ordered
      result; the total does not depend on the page. */
  function ManageList(q: ManageQuery, table: seq<Row>): (r: ManageResult)
    ensures |r.rows| <= q.pageSize
    ensures r.total == Count(table, ManageMatchOf(q))
    ensures forall i :: 0 <= i < |r.rows| ==>
              Offset(q.page, q.pageSize) + i < |ManageMatches(q, table)| && r.rows[i] == ManageMatches(q, table)[Offset(q.page, q.pageSize) + i]
    ensures forall x :: x in r.rows ==> x in table && ManageMatch(q, x)
    ensures SortedBy(r.rows, RowOrder())
  {
    var all := ManageMatches(q, table);
    var rows := Page(all, Offset(q.page, q.pageSize), q.pageSize);
    PageSorted(all, Offset(q.page, q.pageSize), q.pageSize, RowOrder());
    ManageResult(rows, |all|)
  }

  /** The total is the same on every page. */
  lemma ManageTotalIgnoresPage(q: ManageQuery, table: seq<Row>, page: nat)
    ensures ManageList(q.(page := page), table).total == ManageList(q, table).total
  {
    assert forall r :: ManageMatch(q.(page := page), r) <==> ManageMatch(q, r);
    FilterExt(table, ManageMatchOf(q.(page := page)), ManageMatchOf(q));
  }

  /** The element at position `i` is on page `i / size`, at `i % size`. */
  lemma PageOf<T>(s: seq<T>, size: nat, i: nat)
    requires size > 0 && i < |s|
    ensures i % size < |Page(s, Offset(PageNumber(i, size), size), size)|
    ensures Page(s, Offset(PageNumber(i, size), size), size)[i % size] == s[i]
  {
    var from, k := Offset(PageNumber(i, size), size), i % size;
    assert from + k == i && k < size;
    PageAt(s, from, size, k);
  }

  /** Changing the page changes only the slice taken of the same ordered rows. */
  lemma ManageListPage(q: ManageQuery, table: seq<Row>, page: nat)
    ensures ManageList(q.(page := page), table).rows == Page(ManageMatches(q, table), Offset(page, q.pageSize), q.pageSize)
  {
    var q2 := q.(page := page);
    assert forall r :: ManageMatch(q2, r) <==> ManageMatch(q, r);
    FilterExt(table, ManageMatchOf(q2), ManageMatchOf(q));
    assert ManageMatches(q2, table) == ManageMatches(q, table);
    assert q2.pageSize == q.pageSize;
  }

  /** Each matching row is found on exactly one page: the row at position
      `i` of the ordered result is row `i % pageSize` of page `i / pageSize`. */
  lemma ManageRowOnPage(q: ManageQuery, table: seq<Row>, i: nat)
    requires q.pageSize > 0
    requires i < ManageList(q, table).total
    ensures i % q.pageSize < |ManageList(q.(page := PageNumber(i, q.pageSize)), table).rows|
    ensures ManageList(q.(page := PageNumber(i, q.pageSize)), table).rows[i % q.pageSize] == ManageMatches(q, table)[i]
  {
    ManageListPage(q, table, PageNumber(i, q.pageSize));
    PageOf(ManageMatches(q, table), q.pageSize, i);
  }

  function NotDeleted(): Row -> bool {
    (r: Row) => !r.isDeleted
  }

  function DateIn(dateFrom: string, dateTo: string): Row -> bool {
    (r: Row) => InRange(r.date, dateFrom, dateTo)
  }

  function DentistEq(id: string): Row -> bool {
    (r: Row) => r.dentistId == Some(id)
  }

  function StatusEq(s: Status): Row -> bool {
    (r: Row) => r.status == s
  }

  function Searching(term: string): Row -> bool {
    (r: Row) => SearchMatch(r, term)
  }

  function StatusOf(f: StatusFilter): Status {
    if f == OnlyBooked then Booked else Cancelled
  }

  /** The deleted-flag step of `manageList` selects the rows of the
      deleted stage. */
  lemma DeletedStep(params: ManageQuery, table: seq<Row>, query: seq<Row>)
    requires query == Filter(table, DateIn(params.dateFrom, params.dateTo))
    ensures !IsTrue(params.includeDeleted) ==> Filter(query, NotDeleted()) == Filter(table, ManageDeletedOf(params))
    ensures IsTrue(params.includeDeleted) ==> query == Filter(table, ManageDeletedOf(params))
  {
    if !IsTrue(params.includeDeleted) {
      Narrow(table, query, DateIn(params.dateFrom, params.dateTo), NotDeleted(), ManageDeletedOf(params));
    } else {
      FilterExt(table, DateIn(params.dateFrom, params.dateTo), ManageDeletedOf(params));
    }
  }

  /** The dentist step selects the rows of the dentist stage. */
  lemma DentistStep(params: ManageQuery, table: seq<Row>, query: seq<Row>)
    requires query == Filter(table, ManageDeletedOf(params))
    ensures Truthy(params.dentistId) ==> Filter(query, DentistEq(params.dentistId.value)) == Filter(table, ManageDentistOf(params))
    ensures !Truthy(params.dentistId) ==> query == Filter(table, ManageDentistOf(params))
  {
    if Truthy(params.dentistId) {
      Narrow(table, query, ManageDeletedOf(params), DentistEq(params.dentistId.value), ManageDentistOf(params));
    } else {
      FilterExt(table, ManageDeletedOf(params), ManageDentistOf(params));
    }
  }

  /** The status step selects the rows of the status stage. */
  lemma StatusStep(params: ManageQuery, table: seq<Row>, query: seq<Row>)
    requires query == Filter(table, ManageDentistOf(params))
    ensures params.status.Some? && params.status.value != AllStatuses ==>
      Filter(query, StatusEq(StatusOf(params.status.value))) == Filter(table, ManageStatusOf(params))
    ensures !(params.status.Some? && params.status.value != AllStatuses) ==> query == Filter(table, ManageStatusOf(params))
  {
    if params.status.Some? && params.status.value != AllStatuses {
      Narrow(table, query, ManageDentistOf(params), StatusEq(StatusOf(params.status.value)), ManageStatusOf(params));
    } else {
      FilterExt(table, ManageDentistOf(params), ManageStatusOf(params));
    }
  }

  /** The search step selects the rows `ManageMatch` does. */
  lemma SearchStep(params: ManageQuery, table: seq<Row>, query: seq<Row>)
    requires query == Filter(table, ManageStatusOf(params))
    ensures Truthy(params.q) && |Trim(params.q.value)| >= 2 ==>
      Filter(query, Searching(Lower(Trim(params.q.value)))) == Filter(table, ManageMatchOf(params))
    ensures !(Truthy(params.q) && |Trim(params.q.value)| >= 2) ==> query == Filter(table, ManageMatchOf(params))
  {
    if Truthy(params.q) && |Trim(params.q.value)| >= 2 {
      Narrow(table, query, ManageStatusOf(params), Searching(Lower(Trim(params.q.value))), ManageMatchOf(params));
    } else {
      FilterExt(table, ManageStatusOf(params), ManageMatchOf(params));
    }
  }

  /** The narrowing steps of `manageList`: the date range first, then one
      step per active filter. Together they select what `ManageMatch` does. */
  method ManageFilterChain(params: ManageQuery, table: seq<Row>) returns (query: seq<Row>)
    ensures query == Filter(table, ManageMatchOf(params))
  {
    query := Filter(table, DateIn(params.dateFrom, params.dateTo));
    DeletedStep(params, table, query);
    if !IsTrue(params.includeDeleted) {
      query := Filter(query, NotDeleted());
    }
    DentistStep(params, table, query);
    if Truthy(params.dentistId) {
      query := Filter(query, DentistEq(params.dentistId.value));
    }
    StatusStep(params, table, query);
    if params.status.Some? && params.status.value != AllStatuses {
      query := Filter(query, StatusEq(StatusOf(params.status.value)));
    }
    SearchStep(params, table, query);
    if Truthy(params.q) && |Trim(params.q.value)| >= 2 {
      query := Filter(query, Searching(Lower(Trim(params.q.value))));
    }
  }

  /** `manageList` as the source writes it: the narrowing steps, then the
      order and the range. It returns the rows and total of `ManageList`. */
  method ManageListQuery(params: ManageQuery, table: seq<Row>) returns (rows: seq<Row>, total: nat)
    ensures rows == ManageList(params, table).rows
    ensures total == ManageList(params, table).total
  {
    var query := ManageFilterChain(params, table);
    RowOrderTotal();
    var sorted := Sort(query, RowOrder());
    var from := Offset(params.page, params.pageSize);
    rows := Page(sorted, from, params.pageSize);
    total := |sorted|;
  }

  // --------------------------------------------------------------- summary

  /** The summary query; absent optional parameters are `None`. An absent
      `includeUnassigned` is not the same as `false`. */
  datatype SummaryQuery = SummaryQuery(
    dateFrom: string,
    dateTo: string,
    dentistId: Option<string>,
    includeCancelled: Option<bool>,
    includeUnassigned: Option<bool>)

  /** Which rows the summary query selects, as one condition. */
  predicate SummaryMatch(q: SummaryQuery, r: Row) {
    && InRange(r.date, q.dateFrom, q.dateTo)
    && !r.isDeleted
    && (IsTrue(q.includeCancelled) || r.status == Booked)
    && (if Truthy(q.dentistId) then
          r.dentistId == q.dentistId || (IsTrue(q.includeUnassigned) && r.dentistId == None)
        else
          q.includeUnassigned == Some(false) ==> r.dentistId != None)
  }

  function SummaryMatchOf(q: SummaryQuery): Row -> bool {
    (r: Row) => SummaryMatch(q, r)
  }

  /** `summaryList`: every matching row, in date and time order. */
  function SummaryList(q: SummaryQuery, table: seq<Row>): (r: seq<Row>)
    ensures SortedBy(r, RowOrder())
    ensures forall x :: x in r <==> x in table && SummaryMatch(q, x)
    ensures multiset(r) == multiset(Filter(table, SummaryMatchOf(q)))
  {
    RowOrderTotal();
    var matching := Filter(table, SummaryMatchOf(q));
    var r := Sort(matching, RowOrder());
    SameMembers(r, matching);
    r
  }

  /** With no dentist chosen, unassigned rows are dropped only when
      `includeUnassigned` is explicitly `false`; leaving it out keeps them. */
  lemma SummaryUnassignedDefault(q: SummaryQuery, table: seq<Row>, x: Row)
    requires !Truthy(q.dentistId)
    requires x in table && x.dentistId == None
    ensures x !in SummaryList(q.(includeUnassigned := Some(false)), table)
    ensures x in SummaryList(q.(includeUnassigned := None), table)
         <==> InRange(x.date, q.dateFrom, q.dateTo) && !x.isDeleted && (IsTrue(q.includeCancelled) || x.status == Booked)
  {
  }

  function OrUnassigned(id: string): Row -> bool {
    (r: Row) => r.dentistId == Some(id) || r.dentistId == None
  }

  function Assigned(): Row -> bool {
    (r: Row) => r.dentistId != None
  }

  function SummaryDate(dateFrom: string, dateTo: string): Row -> bool {
    (r: Row) => InRange(r.date, dateFrom, dateTo) && !r.isDeleted
  }

  /** `summaryList` as the source writes it, one narrowing step per active
      filter; it returns the rows of `SummaryList`. */
  method SummaryListQuery(params: SummaryQuery, table: seq<Row>) returns (rows: seq<Row>)
    ensures rows == SummaryList(params, table)
  {
    var query := Filter(table, SummaryDate(params.dateFrom, params.dateTo));
    ghost var cond := SummaryDate(params.dateFrom, params.dateTo);
    if !IsTrue(params.includeCancelled) {
      FilterFilter(table, cond, StatusEq(Booked));
      query, cond := Filter(query, StatusEq(Booked)), And(cond, StatusEq(Booked));
    }
    if Truthy(params.dentistId) {
      var id := params.dentistId.value;
      if IsTrue(params.includeUnassigned) {
        FilterFilter(table, cond, OrUnassigned(id));
        query, cond := Filter(query, OrUnassigned(id)), And(cond, OrUnassigned(id));
      } else {
        FilterFilter(table, cond, DentistEq(id));
        query, cond := Filter(query, DentistEq(id)), And(cond, DentistEq(id));
      }
    } else if params.includeUnassigned == Some(false) {
      FilterFilter(table, cond, Assigned());
      query, cond := Filter(query, Assigned()), And(cond, Assigned());
    }
    assert query == Filter(table, cond);
    assert forall r :: cond(r) <==> SummaryMatch(params, r);
    FilterExt(table, cond, SummaryMatchOf(params));
    RowOrderTotal();
    rows := Sort(query, RowOrder());
  }
}
