/** The "other services" list of the booking form and the edit sheet:
    free-text service names typed by the user. Entries are added trimmed,
    blank input is ignored and an entry equal to an existing one up to
    case is not added twice; removal drops exact matches. Before it is
    sent the list is trimmed once more and blank entries dropped. */
module OtherServices {
  import opened Wrappers
  import opened Text
  import opened Seqs

  /** The list as the duplicate check sees it: every entry lower-cased. */
  function Lowers(list: seq<string>): (r: seq<string>)
    ensures |r| == |list|
    ensures forall i :: 0 <= i < |list| ==> r[i] == Lower(list[i])
  {
    seq(|list|, i requires 0 <= i < |list| => Lower(list[i]))
  }

  /** No two entries are equal once lower-cased. */
  predicate UniqueIgnoringCase(list: seq<string>) {
    forall i, j :: 0 <= i < j < |list| ==> Lower(list[i]) != Lower(list[j])
  }

  /** Every entry is trimmed and non-blank: what adding produces. */
  predicate Clean(list: seq<string>) {
    forall x :: x in list ==> x != [] && IsTrimmed(x)
  }

  /** The Enter key and the Add button: the input is trimmed; a blank input
      changes nothing, not even the input box; otherwise the trimmed text is
      appended unless an entry already equals it up to case, and the input
      box is cleared. The result is the new list and the new input. */
  function Add(list: seq<string>, input: string): (r: (seq<string>, string))
    ensures AllSpace(input) ==> r == (list, input)
    ensures !AllSpace(input) ==> r.1 == []
    ensures |list| <= |r.0| <= |list| + 1 && r.0[..|list|] == list
    ensures |r.0| == |list| + 1 <==>
      !AllSpace(input) && forall i :: 0 <= i < |list| ==> Lower(list[i]) != Lower(Trim(input))
    ensures |r.0| == |list| + 1 ==> r.0[|list|] == Trim(input)
  {
    var v := Trim(input);
    if v == [] then (list, input)
    else if Lower(v) in Lowers(list) then (list, [])
    else (list + [v], [])
  }

  /** After a non-blank input the list holds an entry equal to the trimmed
      input up to case, whether it was added now or was there before. */
  lemma AddPresent(list: seq<string>, input: string)
    requires !AllSpace(input)
    ensures Lower(Trim(input)) in Lowers(Add(list, input).0)
  {
    var r := Add(list, input).0;
    if |r| == |list| + 1 {
      assert Lowers(r)[|list|] == Lower(Trim(input));
    } else {
      var i :| 0 <= i < |list| && Lower(list[i]) == Lower(Trim(input));
      assert Lowers(r)[i] == Lower(Trim(input));
    }
  }

  /** Adding keeps the list clean and free of duplicates up to case. */
  lemma AddKeepsInvariant(list: seq<string>, input: string)
    requires Clean(list) && UniqueIgnoringCase(list)
    ensures Clean(Add(list, input).0) && UniqueIgnoringCase(Add(list, input).0)
  {
    var r := Add(list, input).0;
    if |r| == |list| + 1 {
      assert r == list + [Trim(input)];
      forall i, j | 0 <= i < j < |r| ensures Lower(r[i]) != Lower(r[j]) {
        if j == |list| {
          assert r[i] == list[i];
        } else {
          assert r[i] == list[i] && r[j] == list[j];
        }
      }
    } else {
      assert r == list;
    }
  }

  /** The remove button of an entry: every entry equal to it is dropped,
      the others keep their order. */
  function Remove(list: seq<string>, s: string): (r: seq<string>)
    ensures s !in r
    ensures forall x :: x in r <==> x in list && x != s
    ensures Subseq(r, list)
    ensures |r| == |list| - multiset(list)[s]
  {
    FilterSubseq(list, NotEqual(s));
    FilterOutLength(list, s);
    Filter(list, NotEqual(s))
  }

  /** An entry that differs up to case from every entry of a duplicate-free
      list can be put in front of it. */
  lemma UniqueCons(x: string, t: seq<string>)
    requires UniqueIgnoringCase(t)
    requires forall y :: y in t ==> Lower(y) != Lower(x)
    ensures UniqueIgnoringCase([x] + t)
  {
    var l := [x] + t;
    forall i, j | 0 <= i < j < |l| ensures Lower(l[i]) != Lower(l[j]) {
      assert l[j] == t[j - 1];
      if i > 0 {
        assert l[i] == t[i - 1];
      }
    }
  }

  /** The tail of a duplicate-free list is duplicate-free and differs up to
      case from the head. */
  lemma UniqueUncons(list: seq<string>)
    requires list != [] && UniqueIgnoringCase(list)
    ensures UniqueIgnoringCase(list[1..])
    ensures forall y :: y in list[1..] ==> Lower(y) != Lower(list[0])
  {
    var rest := list[1..];
    forall i, j | 0 <= i < j < |rest| ensures Lower(rest[i]) != Lower(rest[j]) {
      assert rest[i] == list[i + 1] && rest[j] == list[j + 1];
    }
    forall y | y in rest ensures Lower(y) != Lower(list[0]) {
      var k :| 0 <= k < |rest| && rest[k] == y;
      assert list[k + 1] == y;
    }
  }

  /** Removal keeps the list free of duplicates up to case. */
  lemma {:induction false} RemoveKeepsUnique(list: seq<string>, s: string)
    requires UniqueIgnoringCase(list)
    ensures UniqueIgnoringCase(Remove(list, s))
    decreases |list|
  {
    if list != [] {
      var rest := list[1..];
      assert list == [list[0]] + rest;
      UniqueUncons(list);
      RemoveKeepsUnique(rest, s);
      FilterAppend([list[0]], rest, NotEqual(s));
      FilterSingleton(list[0], NotEqual(s));
      var tail := Remove(rest, s);
      if list[0] != s {
        assert Remove(list, s) == [list[0]] + tail;
        UniqueCons(list[0], tail);
      } else {
        assert Remove(list, s) == tail;
      }
    }
  }

  /** Removal keeps the list clean and free of duplicates up to case. */
  lemma RemoveKeepsInvariant(list: seq<string>, s: string)
    requires Clean(list) && UniqueIgnoringCase(list)
    ensures Clean(Remove(list, s)) && UniqueIgnoringCase(Remove(list, s))
  {
    RemoveKeepsUnique(list, s);
  }

  /** Removing what was just added gives the list back. */
  lemma AddThenRemove(list: seq<string>, input: string)
    requires |Add(list, input).0| == |list| + 1
    ensures Remove(Add(list, input).0, Trim(input)) == list
  {
    var v := Trim(input);
    assert Add(list, input).0 == list + [v];
    FilterAppend(list, [v], NotEqual(v));
    FilterSingleton(v, NotEqual(v));
    FilterAll(list, NotEqual(v));
  }

  function TrimAll(list: seq<string>): (r: seq<string>)
    ensures |r| == |list|
    ensures forall i :: 0 <= i < |list| ==> r[i] == Trim(list[i])
  {
    seq(|list|, i requires 0 <= i < |list| => Trim(list[i]))
  }

  function NonEmpty(): string -> bool {
    x => x != []
  }

  /** What survives trimming and dropping blanks is trimmed and non-blank. */
  lemma TrimmedClean(list: seq<string>)
    ensures Clean(Filter(TrimAll(list), NonEmpty()))
  {
    var t := TrimAll(list);
    forall x | x in Filter(t, NonEmpty()) ensures x != [] && IsTrimmed(x) {
      assert x in t && NonEmpty()(x);
      var i :| 0 <= i < |t| && t[i] == x;
      assert x == Trim(list[i]);
    }
  }

  /** Nothing survives trimming and dropping blanks exactly when every
      entry is blank. */
  lemma TrimmedEmpty(list: seq<string>)
    ensures Filter(TrimAll(list), NonEmpty()) == [] <==> forall i :: 0 <= i < |list| ==> AllSpace(list[i])
  {
    var t := TrimAll(list);
    var r := Filter(t, NonEmpty());
    if r != [] {
      assert r[0] in t;
      var i :| 0 <= i < |t| && t[i] == r[0];
      assert !AllSpace(list[i]);
    } else {
      forall i | 0 <= i < |list| ensures AllSpace(list[i]) {
        assert t[i] in t && t[i] !in r;
      }
    }
  }

  function NotBlank(): string -> bool {
    x => !AllSpace(x)
  }

  lemma TrimAllAppend(a: seq<string>, b: seq<string>)
    ensures TrimAll(a + b) == TrimAll(a) + TrimAll(b)
  {
  }

  /** One entry survives per non-blank entry of the list. */
  lemma {:induction false} TrimmedCount(list: seq<string>)
    ensures |Filter(TrimAll(list), NonEmpty())| == Count(list, NotBlank())
    decreases |list|
  {
    if list != [] {
      var x, rest := list[0], list[1..];
      assert list == [x] + rest;
      TrimAllAppend([x], rest);
      assert TrimAll([x]) == [Trim(x)];
      FilterAppend([Trim(x)], TrimAll(rest), NonEmpty());
      FilterAppend([x], rest, NotBlank());
      FilterSingleton(Trim(x), NonEmpty());
      FilterSingleton(x, NotBlank());
      TrimmedCount(rest);
    }
  }

  /** A surviving entry is the trimmed form of a non-blank entry. */
  lemma TrimmedMemberFrom(list: seq<string>, x: string)
    requires x in Filter(TrimAll(list), NonEmpty())
    ensures exists i :: 0 <= i < |list| && !AllSpace(list[i]) && x == Trim(list[i])
  {
    var t := TrimAll(list);
    var i :| 0 <= i < |t| && t[i] == x;
    assert x == Trim(list[i]) && x != [];
  }

  /** The trimmed form of a non-blank entry survives. */
  lemma TrimmedMemberTo(list: seq<string>, i: int)
    requires 0 <= i < |list| && !AllSpace(list[i])
    ensures Trim(list[i]) in Filter(TrimAll(list), NonEmpty())
  {
    var t := TrimAll(list);
    assert t[i] == Trim(list[i]) && t[i] in t;
  }

  /** What survives is the trimmed form of some non-blank entry, and the
      trimmed form of every non-blank entry survives. */
  lemma TrimmedMembers(list: seq<string>)
    ensures forall x :: x in Filter(TrimAll(list), NonEmpty()) <==>
      exists i :: 0 <= i < |list| && !AllSpace(list[i]) && x == Trim(list[i])
  {
    forall x ensures x in Filter(TrimAll(list), NonEmpty()) <==> exists i :: 0 <= i < |list| && !AllSpace(list[i]) && x == Trim(list[i]) {
      if x in Filter(TrimAll(list), NonEmpty()) {
        TrimmedMemberFrom(list, x);
      }
      if exists i :: 0 <= i < |list| && !AllSpace(list[i]) && x == Trim(list[i]) {
        var i :| 0 <= i < |list| && !AllSpace(list[i]) && x == Trim(list[i]);
        TrimmedMemberTo(list, i);
      }
    }
  }

  /** `map(trim).filter(Boolean)`: the non-blank entries, trimmed, in
      their order. */
  function Normalize(list: seq<string>): (r: seq<string>)
    ensures Clean(r)
    ensures Subseq(r, TrimAll(list))
    ensures |r| == Count(list, NotBlank()) && |r| <= |list|
    ensures forall x :: x in r <==> exists i :: 0 <= i < |list| && !AllSpace(list[i]) && x == Trim(list[i])
    ensures r == [] <==> forall i :: 0 <= i < |list| ==> AllSpace(list[i])
  {
    TrimmedClean(list);
    TrimmedEmpty(list);
    TrimmedCount(list);
    TrimmedMembers(list);
    FilterSubseq(TrimAll(list), NonEmpty());
    Filter(TrimAll(list), NonEmpty())
  }

  /** A single entry normalises to itself trimmed, or to nothing when it
      is blank. */
  lemma NormalizeSingleton(x: string)
    ensures Normalize([x]) == if AllSpace(x) then [] else [Trim(x)]
  {
    assert TrimAll([x]) == [Trim(x)];
    FilterSingleton(Trim(x), NonEmpty());
  }

  /** Normalising works entry by entry and keeps the order: the list of
      two lists is the normal form of the first followed by that of the
      second. */
  lemma NormalizeAppend(a: seq<string>, b: seq<string>)
    ensures Normalize(a + b) == Normalize(a) + Normalize(b)
  {
    TrimAllAppend(a, b);
    FilterAppend(TrimAll(a), TrimAll(b), NonEmpty());
  }

  /** A list that adding and removing produced is already normal. */
  lemma NormalizeClean(list: seq<string>)
    requires Clean(list)
    ensures Normalize(list) == list
  {
    assert TrimAll(list) == list;
    FilterAll(list, NonEmpty());
  }

  /** The payload's `other_services`: the normalised list, or null when
      nothing is left. */
  function Payload(list: seq<string>): (r: Option<seq<string>>)
    ensures r.None? <==> forall i :: 0 <= i < |list| ==> AllSpace(list[i])
    ensures r.Some? ==> r.value != [] && Clean(r.value) && r.value == Normalize(list)
  {
    var n := Normalize(list);
    if |n| > 0 then Some(n) else None
  }

  /** At least one entry is non-blank: what `validate` counts as having
      other services. */
  predicate HasAny(list: seq<string>) {
    |Normalize(list)| > 0
  }
}
