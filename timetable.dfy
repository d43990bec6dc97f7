/** The multi-day timetable: bookings bucketed by day and slot, the list a
    cell shows under the dentist filter, the capacity figures above each
    cell, and the editing of the day columns. */
module Timetable {
  import opened Wrappers
  import opened Seqs
  import opened Time
  import opened Records

  /** Slots a whole clinic offers: per-dentist capacity for every listed
      dentist plus the unassigned capacity. */
  function TotalCapacity(dentists: seq<Dentist>, settings: Settings): int {
    |dentists| * settings.perDentist + settings.unassigned
  }

  /** The key of a cell: `day|HH:mm`. */
  function CellKey(day: string, hhmm: string): string {
    day + "|" + hhmm
  }

  /** The cell a booking belongs to: its date and its time cut to `HH:mm`. */
  function BookingKey(b: Booking): string {
    CellKey(b.date, DbTimeToHHmm(b.time))
  }

  function KeyIs(key: string): Booking -> bool {
    b => BookingKey(b) == key
  }

  /** The bookings of one cell, in input order. */
  function Bucket(bookings: seq<Booking>, key: string): seq<Booking> {
    Filter(bookings, KeyIs(key))
  }

  /** `map.get(key) ?? []`. */
  function Lookup(index: map<string, seq<Booking>>, key: string): seq<Booking> {
    if key in index then index[key] else []
  }

  /** Distinct days and slot strings give distinct keys, as long as the
      days have no `|` in them (ISO dates do not). */
  lemma CellKeyInjective(d1: string, t1: string, d2: string, t2: string)
    requires '|' !in d1 && '|' !in d2
    ensures CellKey(d1, t1) == CellKey(d2, t2) <==> d1 == d2 && t1 == t2
  {
    var k1, k2 := CellKey(d1, t1), CellKey(d2, t2);
    if |d1| < |d2| {
      assert k1[|d1|] != k2[|d1|];
    } else if |d2| < |d1| {
      assert k1[|d2|] != k2[|d2|];
    } else if k1 == k2 {
      assert d1 == k1[..|d1|] && d2 == k2[..|d2|];
      assert t1 == k1[|d1| + 1..] && t2 == k2[|d2| + 1..];
    }
  }

  /** `bookingsByDayTime`: one pass over the bookings, appending each to
      the list of its cell. The list of a key is exactly the bookings with
      that key in input order, and only keys of some booking are present. */
  method BookingsByDayTime(bookings: seq<Booking>) returns (index: map<string, seq<Booking>>)
    ensures forall k :: Lookup(index, k) == Bucket(bookings, k)
    ensures forall k :: k in index <==> Bucket(bookings, k) != []
  {
    index := map[];
    for i := 0 to |bookings|
      invariant forall k :: Lookup(index, k) == Bucket(bookings[..i], k)
      invariant forall k :: k in index ==> index[k] != []
    {
      var b := bookings[i];
      var key := BookingKey(b);
      var arr := Lookup(index, key);
      BucketStep(index, bookings[..i], b);
      index := index[key := arr + [b]];
      assert bookings[..i + 1] == bookings[..i] + [b];
    }
    assert bookings[..|bookings|] == bookings;
  }

  /** One step of the loop above: appending `b` to the list of its key turns
      the buckets of `bs` into those of `bs + [b]`. */
  lemma BucketStep(prev: map<string, seq<Booking>>, bs: seq<Booking>, b: Booking)
    requires forall k :: Lookup(prev, k) == Bucket(bs, k)
    ensures forall k :: Lookup(prev[BookingKey(b) := Lookup(prev, BookingKey(b)) + [b]], k) == Bucket(bs + [b], k)
  {
    var next := prev[BookingKey(b) := Lookup(prev, BookingKey(b)) + [b]];
    forall k ensures Lookup(next, k) == Bucket(bs + [b], k) {
      FilterAppend(bs, [b], KeyIs(k));
      FilterSingleton(b, KeyIs(k));
      if k == BookingKey(b) {
        assert Lookup(next, k) == Lookup(prev, k) + [b];
      } else {
        assert Lookup(next, k) == Lookup(prev, k);
      }
    }
  }

  /** A booking is in the bucket of its own key and in no other. */
  lemma BucketPlacement(bookings: seq<Booking>, b: Booking, key: string)
    requires b in bookings
    ensures b in Bucket(bookings, key) <==> key == BookingKey(b)
  {
  }

  /** Buckets keep the order of the input. */
  lemma BucketOrder(bookings: seq<Booking>, key: string)
    ensures Subseq(Bucket(bookings, key), bookings)
  {
    FilterSubseq(bookings, KeyIs(key));
  }

  /** The buckets of a list of distinct keys, one after the other. */
  function Concat(bookings: seq<Booking>, keys: seq<string>): seq<Booking> {
    if keys == [] then [] else Bucket(bookings, keys[0]) + Concat(bookings, keys[1..])
  }

  lemma {:induction false} ConcatOccurrences(bookings: seq<Booking>, keys: seq<string>, b: Booking)
    requires NoDup(keys)
    ensures multiset(Concat(bookings, keys))[b] == if BookingKey(b) in keys then multiset(bookings)[b] else 0
  {
    if keys != [] {
      ConcatOccurrences(bookings, keys[1..], b);
      FilterOccurs(bookings, KeyIs(keys[0]));
      assert keys[0] !in keys[1..];
    }
  }

  /** Taking the buckets of all keys that occur, each once, gives back every
      booking exactly as often as it was given: bucketing loses nothing and
      duplicates nothing. */
  lemma BucketsPermutation(bookings: seq<Booking>, keys: seq<string>)
    requires NoDup(keys)
    requires forall b :: b in bookings ==> BookingKey(b) in keys
    ensures multiset(Concat(bookings, keys)) == multiset(bookings)
  {
    forall b ensures multiset(Concat(bookings, keys))[b] == multiset(bookings)[b] {
      ConcatOccurrences(bookings, keys, b);
    }
  }

  /** Whether a booking is listed in a cell under the dentist filter (empty
      for all dentists) and the include-unassigned switch. */
  predicate Shown(b: Booking, dentistFilter: string, includeUnassigned: bool) {
    dentistFilter == []
    || b.dentistId == Some(dentistFilter)
    || (includeUnassigned && b.dentistId == None)
  }

  function DentistIs(dentistFilter: string): Booking -> bool {
    (b: Booking) => b.dentistId == Some(dentistFilter)
  }

  function Unassigned(): Booking -> bool {
    (b: Booking) => b.dentistId == None
  }

  function DentistOrUnassigned(dentistFilter: string): Booking -> bool {
    (b: Booking) => b.dentistId == Some(dentistFilter) || b.dentistId == None
  }

  function LiveOnly(): Booking -> bool {
    b => IsLive(b)
  }

  /** `cellBookings`: the cell's list, narrowed by the dentist filter. It
      keeps the cell's order and holds each shown booking as often as the
      cell does. */
  function CellBookings(index: map<string, seq<Booking>>, day: string, time: string,
                        dentistFilter: string, includeUnassigned: bool): (r: seq<Booking>)
    ensures Subseq(r, Lookup(index, CellKey(day, time)))
    ensures forall b :: b in r <==> b in Lookup(index, CellKey(day, time)) && Shown(b, dentistFilter, includeUnassigned)
    ensures forall b :: multiset(r)[b] ==
                        if Shown(b, dentistFilter, includeUnassigned) then multiset(Lookup(index, CellKey(day, time)))[b] else 0
  {
    var arr := Lookup(index, CellKey(day, time));
    if dentistFilter == [] then
      SubseqRefl(arr);
      arr
    else if includeUnassigned then
      FilterSubseq(arr, DentistOrUnassigned(dentistFilter));
      FilterOccurs(arr, DentistOrUnassigned(dentistFilter));
      Filter(arr, DentistOrUnassigned(dentistFilter))
    else
      FilterSubseq(arr, DentistIs(dentistFilter));
      FilterOccurs(arr, DentistIs(dentistFilter));
      Filter(arr, DentistIs(dentistFilter))
  }

  /** With no dentist filter a cell lists its whole bucket. */
  lemma CellBookingsUnfiltered(index: map<string, seq<Booking>>, day: string, time: string, includeUnassigned: bool)
    ensures CellBookings(index, day, time, [], includeUnassigned) == Lookup(index, CellKey(day, time))
  {
  }

  /** The figures shown above a cell. */
  datatype CellCounts =
    | Aggregate(booked: nat, cap: int)
    | DentistOnly(dentistBooked: nat, dentistCap: int)
    | Both(dentistBooked: nat, dentistCap: int, unassignedBooked: nat, unassignedCap: int)
  {
    /** The number of bookings the figures say are taken. */
    function TotalBooked(): nat {
      match this
      case Aggregate(booked, _) => booked
      case DentistOnly(d, _) => d
      case Both(d, _, u, _) => d + u
    }
  }

  /** `counts`: live bookings of the whole cell (before the dentist filter),
      against the capacity the mode asks for. */
  function Counts(index: map<string, seq<Booking>>, day: string, time: string,
                  dentistFilter: string, includeUnassigned: bool,
                  dentists: seq<Dentist>, settings: Settings): (r: CellCounts)
    ensures r.Aggregate? <==> dentistFilter == []
    ensures r.Both? <==> dentistFilter != [] && includeUnassigned
    ensures r.Aggregate? ==> r.cap == |dentists| * settings.perDentist + settings.unassigned
    ensures !r.Aggregate? ==> r.dentistCap == settings.perDentist
    ensures r.Both? ==> r.unassignedCap == settings.unassigned
  {
    var arr := Lookup(index, CellKey(day, time));
    var notCancelled := Filter(arr, LiveOnly());
    if dentistFilter == [] then
      Aggregate(|notCancelled|, TotalCapacity(dentists, settings))
    else
      var dentistBooked := |Filter(notCancelled, DentistIs(dentistFilter))|;
      var unassignedBooked := |Filter(notCancelled, Unassigned())|;
      if includeUnassigned then
        Both(dentistBooked, settings.perDentist, unassignedBooked, settings.unassigned)
      else
        DentistOnly(dentistBooked, settings.perDentist)
  }

  /** The figures depend only on the live bookings of the cell: cancelled or
      deleted ones never count. */
  lemma CountsOnlyLive(i1: map<string, seq<Booking>>, i2: map<string, seq<Booking>>,
                       day: string, time: string, dentistFilter: string, includeUnassigned: bool,
                       dentists: seq<Dentist>, settings: Settings)
    requires Filter(Lookup(i1, CellKey(day, time)), LiveOnly()) == Filter(Lookup(i2, CellKey(day, time)), LiveOnly())
    ensures Counts(i1, day, time, dentistFilter, includeUnassigned, dentists, settings)
         == Counts(i2, day, time, dentistFilter, includeUnassigned, dentists, settings)
  {
  }

  /** Appending a booking to the listing appends it to its own bucket only. */
  lemma BucketAppend(bookings: seq<Booking>, b: Booking, key: string)
    ensures Bucket(bookings + [b], key) == Bucket(bookings, key) + (if BookingKey(b) == key then [b] else [])
  {
    FilterAppend(bookings, [b], KeyIs(key));
    FilterSingleton(b, KeyIs(key));
  }

  /** Adding a cancelled or deleted booking to the listing changes no figure. */
  lemma DeadBookingIgnored(bookings: seq<Booking>, d: Booking, i1: map<string, seq<Booking>>, i2: map<string, seq<Booking>>,
                           day: string, time: string, dentistFilter: string, includeUnassigned: bool,
                           dentists: seq<Dentist>, settings: Settings)
    requires !IsLive(d)
    requires forall k :: Lookup(i1, k) == Bucket(bookings, k)
    requires forall k :: Lookup(i2, k) == Bucket(bookings + [d], k)
    ensures Counts(i1, day, time, dentistFilter, includeUnassigned, dentists, settings)
         == Counts(i2, day, time, dentistFilter, includeUnassigned, dentists, settings)
  {
    var key := CellKey(day, time);
    var extra := if BookingKey(d) == key then [d] else [];
    BucketAppend(bookings, d, key);
    FilterAppend(Bucket(bookings, key), extra, LiveOnly());
    assert Filter(extra, LiveOnly()) == [] by {
      FilterSingleton(d, LiveOnly());
    }
    assert Filter(Lookup(i2, key), LiveOnly()) == Filter(Lookup(i1, key), LiveOnly());
    CountsOnlyLive(i1, i2, day, time, dentistFilter, includeUnassigned, dentists, settings);
  }

  /** With a dentist filter, the dentist's figure is the number of live
      bookings of the cell with that dentist. */
  lemma DentistBookedIs(index: map<string, seq<Booking>>, day: string, time: string,
                        dentistFilter: string, includeUnassigned: bool,
                        dentists: seq<Dentist>, settings: Settings)
    requires dentistFilter != []
    ensures Counts(index, day, time, dentistFilter, includeUnassigned, dentists, settings).dentistBooked
         == Count(Filter(Lookup(index, CellKey(day, time)), LiveOnly()), DentistIs(dentistFilter))
  {
  }

  /** With a dentist filter, an unassigned booking never raises the
      dentist's figure. */
  lemma UnassignedKeepsDentistBooked(bookings: seq<Booking>, u: Booking, i1: map<string, seq<Booking>>, i2: map<string, seq<Booking>>,
                                     day: string, time: string, dentistFilter: string, includeUnassigned: bool,
                                     dentists: seq<Dentist>, settings: Settings)
    requires u.dentistId == None
    requires dentistFilter != []
    requires forall k :: Lookup(i1, k) == Bucket(bookings, k)
    requires forall k :: Lookup(i2, k) == Bucket(bookings + [u], k)
    ensures Counts(i2, day, time, dentistFilter, includeUnassigned, dentists, settings).dentistBooked
         == Counts(i1, day, time, dentistFilter, includeUnassigned, dentists, settings).dentistBooked
  {
    var key := CellKey(day, time);
    var extra := if BookingKey(u) == key then [u] else [];
    var bucket := Bucket(bookings, key);
    assert Lookup(i1, key) == bucket;
    assert Lookup(i2, key) == bucket + extra by {
      BucketAppend(bookings, u, key);
    }
    var liveExtra := Filter(extra, LiveOnly());
    FilterAppend(bucket, extra, LiveOnly());
    FilterAppend(Filter(bucket, LiveOnly()), liveExtra, DentistIs(dentistFilter));
    assert liveExtra == [] || liveExtra == [u] by {
      FilterSingleton(u, LiveOnly());
    }
    FilterNone(liveExtra, DentistIs(dentistFilter));
    DentistBookedIs(i1, day, time, dentistFilter, includeUnassigned, dentists, settings);
    DentistBookedIs(i2, day, time, dentistFilter, includeUnassigned, dentists, settings);
  }

  /** No booking counts both for the filtered dentist and as unassigned. */
  lemma DentistAndUnassignedDisjoint(b: Booking, dentistFilter: string)
    ensures !(DentistIs(dentistFilter)(b) && Unassigned()(b))
  {
  }

  /** The figures count exactly the live bookings among those the cell
      lists: all of them with no filter, the dentist's with the switch off,
      and the dentist's plus the unassigned ones with it on. */
  lemma CountsMatchList(index: map<string, seq<Booking>>, day: string, time: string,
                        dentistFilter: string, includeUnassigned: bool,
                        dentists: seq<Dentist>, settings: Settings)
    ensures Counts(index, day, time, dentistFilter, includeUnassigned, dentists, settings).TotalBooked()
         == Count(CellBookings(index, day, time, dentistFilter, includeUnassigned), LiveOnly())
  {
    var arr := Lookup(index, CellKey(day, time));
    var live := Filter(arr, LiveOnly());
    if dentistFilter != [] {
      if includeUnassigned {
        FilterCommute(arr, DentistOrUnassigned(dentistFilter), LiveOnly());
        CountSplit(live, DentistIs(dentistFilter), Unassigned(), DentistOrUnassigned(dentistFilter));
      } else {
        FilterCommute(arr, DentistIs(dentistFilter), LiveOnly());
      }
    }
  }

  /** `addDay`: appends a copy of the last day. Needs at least one day,
      which the booking page guarantees. */
  function AddDay(days: seq<string>): (r: seq<string>)
    requires days != []
    ensures |r| == |days| + 1
    ensures r[..|days|] == days
    ensures r[|days|] == days[|days| - 1]
  {
    days + [days[|days| - 1]]
  }

  /** `removeDay`: day 1 cannot be removed; any other index is dropped and
      the rest keep their order. An index with no column changes nothing. */
  function RemoveDay(days: seq<string>, idx: int): (r: seq<string>)
    ensures idx == 0 || idx < 0 || idx >= |days| ==> r == days
    ensures 0 < idx < |days| ==> |r| == |days| - 1
    ensures 0 < idx < |days| ==> r[..idx] == days[..idx]
    ensures 0 < idx < |days| ==> forall j :: idx <= j < |r| ==> r[j] == days[j + 1]
    ensures days != [] ==> r != [] && r[0] == days[0]
  {
    if idx == 0 then days
    else if 0 < idx < |days| then days[..idx] + days[idx + 1..]
    else days
  }

  /** `updateDay`: a copy of the columns with one index replaced. */
  method UpdateDay(days: seq<string>, idx: int, value: string) returns (r: seq<string>)
    requires 0 <= idx < |days|
    ensures |r| == |days|
    ensures r[idx] == value
    ensures forall j :: 0 <= j < |days| && j != idx ==> r[j] == days[j]
  {
    var copy := new string[|days|](i requires 0 <= i < |days| => days[i]);
    copy[idx] := value;
    r := copy[..];
  }
}
