/** The time-slot grid of the clinic and the two time formats: display
    `HH:mm` and storage `HH:mm:ss`. Times of day are minutes after
    midnight; a slot is displayed with date-fns' `HH:mm` pattern. */
module Time {
  import opened StrOrder

  /** First slot, 10:00. */
  const Open: int := 600
  /** Last slot, 18:45. */
  const Close: int := 1125
  /** Slot length in minutes. */
  const Step: int := 15
  const MinutesPerDay: int := 1440

  predicate IsDigit(c: char) {
    '0' <= c <= '9'
  }

  function DigitChar(n: int): char
    requires 0 <= n < 10
  {
    ('0' as int + n) as char
  }

  function DigitValue(c: char): int
    requires IsDigit(c)
  {
    c as int - '0' as int
  }

  /** Two digits, a colon, two digits. */
  predicate IsHHmm(s: string) {
    |s| == 5 && IsDigit(s[0]) && IsDigit(s[1]) && s[2] == ':' && IsDigit(s[3]) && IsDigit(s[4])
  }

  /** `HH:mm` whose minutes are below 60. */
  predicate IsClock(s: string) {
    IsHHmm(s) && s[3] <= '5'
  }

  /** The minutes after midnight an `HH:mm` string denotes. */
  function ParseHHmm(s: string): int
    requires IsHHmm(s)
  {
    (DigitValue(s[0]) * 10 + DigitValue(s[1])) * 60 + DigitValue(s[3]) * 10 + DigitValue(s[4])
  }

  /** `format(t, "HH:mm")`: zero-padded hours and minutes. */
  function FormatHHmm(m: int): (r: string)
    requires 0 <= m < MinutesPerDay
    ensures |r| == 5
  {
    var h, mm := m / 60, m % 60;
    [DigitChar(h / 10), DigitChar(h % 10), ':', DigitChar(mm / 10), DigitChar(mm % 10)]
  }

  /** A formatted time is a valid clock string that reads back as the
      minute count it was made from. */
  lemma FormatParses(m: int)
    requires 0 <= m < MinutesPerDay
    ensures IsClock(FormatHHmm(m)) && ParseHHmm(FormatHHmm(m)) == m
  {
  }

  /** On `HH:mm` strings with valid minutes, string order is time order. */
  lemma ClockOrder(s: string, t: string)
    requires IsClock(s) && IsClock(t)
    ensures Less(s, t) <==> ParseHHmm(s) < ParseHHmm(t)
  {
    assert s[5..] == [] && t[5..] == [];
    assert s[1..][1..] == s[2..] && t[1..][1..] == t[2..];
    assert s[2..][1..] == s[3..] && t[2..][1..] == t[3..];
    assert s[3..][1..] == s[4..] && t[3..][1..] == t[4..];
    assert s[4..][1..] == s[5..] && t[4..][1..] == t[5..];
    assert Less(s[4..], t[4..]) <==> s[4] < t[4];
    assert Less(s[3..], t[3..]) <==> s[3] < t[3] || (s[3] == t[3] && s[4] < t[4]);
    assert Less(s[2..], t[2..]) <==> Less(s[3..], t[3..]);
  }

  /** Number of slots in a day: 10:00 to 18:45 in steps of 15 minutes. */
  const SlotCount: nat := 36

  /** All slots of a day: slot `i` is `i` steps after 10:00. */
  function SlotGrid(): seq<string> {
    seq(SlotCount, i requires 0 <= i < SlotCount => FormatHHmm(Open + Step * i))
  }

  /** Every slot is a valid clock string between 10:00 and 18:45, and
      each is 15 minutes after the previous one. */
  lemma SlotGridShape()
    ensures forall i :: 0 <= i < SlotCount ==>
      IsClock(SlotGrid()[i]) && ParseHHmm(SlotGrid()[i]) == Open + Step * i
      && Open <= ParseHHmm(SlotGrid()[i]) <= Close
  {
    forall i | 0 <= i < SlotCount
      ensures IsClock(SlotGrid()[i]) && ParseHHmm(SlotGrid()[i]) == Open + Step * i
    {
      FormatParses(Open + Step * i);
    }
  }

  /** The first slot is 10:00 and the last is 18:45. */
  lemma SlotGridEnds()
    ensures SlotGrid()[0] == "10:00" && SlotGrid()[|SlotGrid()| - 1] == "18:45"
  {
    SlotGridShape();
    assert SlotGrid()[0] == FormatHHmm(600);
    assert SlotGrid()[35] == FormatHHmm(1125);
  }

  /** Slots are strictly increasing as strings, the order the time picker
      and the timetable rows show them in. */
  lemma SlotGridIncreasing()
    ensures forall i, j :: 0 <= i < j < |SlotGrid()| ==> Less(SlotGrid()[i], SlotGrid()[j])
  {
    SlotGridShape();
    var g := SlotGrid();
    forall i, j | 0 <= i < j < |g| ensures Less(g[i], g[j]) {
      ClockOrder(g[i], g[j]);
    }
  }

  /** `timeSlots()`: a loop that starts at 10:00 and pushes each time as
      `HH:mm` while it is not after 18:45, advancing by 15 minutes. */
  method TimeSlots() returns (slots: seq<string>)
    ensures slots == SlotGrid()
  {
    slots := [];
    var t := Open;
    while t <= Close
      invariant |slots| <= SlotCount && t == Open + Step * |slots|
      invariant slots == SlotGrid()[..|slots|]
    {
      slots := slots + [FormatHHmm(t)];
      t := t + Step;
    }
  }

  /** `timeToDb`: the display time followed by `:00`. */
  function TimeToDb(hhmm: string): (r: string)
    ensures |r| == |hhmm| + 3
    ensures r[..|hhmm|] == hhmm && r[|hhmm|..] == ":00"
  {
    hhmm + ":00"
  }

  /** `dbTimeToHHmm`: the first `min(5, |t|)` characters of `t`. */
  function DbTimeToHHmm(t: string): (r: string)
    ensures |r| == if |t| < 5 then |t| else 5
    ensures r <= t
  {
    t[..if |t| < 5 then |t| else 5]
  }

  /** A storage time whose display part is an `HH:mm` and whose seconds are zero. */
  predicate IsStorageTime(t: string) {
    |t| == 8 && IsHHmm(t[..5]) && t[5..] == ":00"
  }

  /** Display to storage and back gives the display time back exactly for
      five-character inputs. */
  lemma DisplayRoundTrip(s: string)
    ensures DbTimeToHHmm(TimeToDb(s)) == s <==> |s| == 5
  {
  }

  /** Storage to display and back gives the storage time back exactly when
      it is five characters followed by `:00`. */
  lemma StorageRoundTrip(t: string)
    ensures TimeToDb(DbTimeToHHmm(t)) == t <==> (|t| == 8 && t[5..] == ":00")
  {
    if |t| == 8 && t[5..] == ":00" {
      assert t == t[..5] + t[5..];
    }
  }

  /** Every slot converts losslessly to storage form and back. */
  lemma SlotRoundTrip(i: int)
    requires 0 <= i < |SlotGrid()|
    ensures IsStorageTime(TimeToDb(SlotGrid()[i]))
    ensures DbTimeToHHmm(TimeToDb(SlotGrid()[i])) == SlotGrid()[i]
  {
    SlotGridShape();
  }
}
