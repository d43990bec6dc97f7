/** The patient picker of the booking form: a search over patients that
    starts at two characters, paged twenty at a time by an offset. */
module PatientCombobox {
  import opened Wrappers
  import opened Text
  import opened Records
  import Labels

  const Limit: nat := 20
  const MinQuery: nat := 2

  /** The search runs only once the trimmed, debounced query has at least
      two characters. */
  predicate Enabled(debounced: string) {
    |Trim(debounced)| >= MinQuery
  }

  /** The arguments of `searchPatients`. */
  datatype SearchArgs = SearchArgs(term: string, limit: nat, offset: int)

  /** The search the picker runs, or none while it is disabled. */
  function Search(debounced: string, offset: int): (r: Option<SearchArgs>)
    ensures r.None? <==> |Trim(debounced)| < 2
    ensures r.Some? ==> r.value.term == Trim(debounced) && IsTrimmed(r.value.term) && |r.value.term| >= 2
    ensures r.Some? ==> r.value.limit == 20 && r.value.offset == offset
  {
    if Enabled(debounced) then Some(SearchArgs(Trim(debounced), Limit, offset)) else None
  }

  /** An offset the picker can reach: a non-negative multiple of the page
      size. */
  predicate PageStart(offset: int) {
    offset >= 0 && offset % Limit == 0
  }

  /** The page label, `floor(offset / 20) + 1`. */
  function PageLabel(offset: int): (n: int)
    requires offset >= 0
    ensures n >= 1
    ensures PageStart(offset) ==> offset == (n - 1) * 20
  {
    offset / Limit + 1
  }

  /** Next moves the label one page on. */
  lemma NextLabel(offset: int)
    requires PageStart(offset)
    ensures PageStart(offset + Limit)
    ensures PageLabel(offset + Limit) == PageLabel(offset) + 1
  {
  }

  /** Prev, when enabled, moves the label one page back. */
  lemma PrevLabel(offset: int)
    requires PageStart(offset) && offset != 0
    ensures PageStart(offset - Limit)
    ensures PageLabel(offset - Limit) == PageLabel(offset) - 1
  {
  }

  /** The offset and the debounced query it belongs to. */
  class Picker {
    var debounced: string
    var offset: int
    var value: Option<Patient>

    ghost predicate Valid()
      reads this
    {
      PageStart(offset)
    }

    constructor ()
      ensures Valid() && debounced == [] && offset == 0 && value.None?
    {
      debounced, offset, value := [], 0, None;
    }

    /** The debounced query settles on `v`; the effect keyed on it sends the
        offset back to 0 when it changed. */
    method SetDebounced(v: string)
      requires Valid()
      modifies this`debounced, this`offset
      ensures Valid() && debounced == v
      ensures v != old(debounced) ==> offset == 0
      ensures v == old(debounced) ==> offset == old(offset)
    {
      if v != debounced {
        offset := 0;
      }
      debounced := v;
    }

    /** Prev is disabled on the first page; while it is enabled the picker
        is at least a whole page in, so Prev moves back exactly one page. */
    predicate PrevDisabled(): (r: bool)
      reads this
      ensures Valid() && !r ==> offset >= Limit
    {
      offset == 0
    }

    /** Next is disabled when the page came back with fewer than twenty
        patients. */
    predicate NextDisabled(items: nat) {
      items < Limit
    }

    /** Prev: twenty back, never below 0. */
    method Prev()
      requires Valid()
      modifies this`offset
      ensures Valid()
      ensures old(offset) >= 20 ==> offset == old(offset) - 20
      ensures old(offset) < 20 ==> offset == 0
    {
      offset := if offset - Limit > 0 then offset - Limit else 0;
    }

    /** Next: twenty on. */
    method Next()
      requires Valid()
      modifies this`offset
      ensures Valid() && offset == old(offset) + 20
    {
      offset := offset + Limit;
    }

    /** Choosing a patient from the list. */
    method Choose(p: Patient)
      modifies this`value
      ensures value == Some(p)
    {
      value := Some(p);
    }

    /** The text of the picker's button. */
    function Label(): (text: string)
      reads this
      ensures value.None? ==> text == "Search HN / name..."
      ensures value.Some? ==> text == JoinWords(value.value.hn, Labels.FirstTruthy(value.value.nameTh, value.value.nameEn))
    {
      Labels.PickerLabel(value)
    }
  }
}
