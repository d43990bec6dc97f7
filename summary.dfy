/** The printable summary: the listed rows grouped by date or by dentist
    label, groups in ascending key order, rows of a group in list order.
    The grouping is stated for any element type and key function; the page
    uses it on rows with one of its two keys. */
module Summary {
  import opened Seqs
  import opened StrOrder
  import opened Sorting
  import opened Records
  import Labels

  datatype GroupMode = ByDate | ByDentist

  datatype Group<T> = Group(key: string, rows: seq<T>)

  /** The key a row is grouped under. */
  function GroupKey(mode: GroupMode, r: Row): string {
    match mode
    case ByDate => r.date
    case ByDentist => Labels.RowDentistLabel(r)
  }

  function KeyOf(mode: GroupMode): Row -> string {
    r => GroupKey(mode, r)
  }

  function KeyIs<T>(keyOf: T -> string, key: string): T -> bool {
    x => keyOf(x) == key
  }

  /** `m.get(key) ?? []`. */
  function Lookup<T>(m: map<string, seq<T>>, key: string): seq<T> {
    if key in m then m[key] else []
  }

  /** Appending an element adds it to the filtered list of its own key only. */
  lemma FilterSnoc<T(!new)>(xs: seq<T>, x: T, keyOf: T -> string, k: string)
    ensures Filter(xs + [x], KeyIs(keyOf, k)) == Filter(xs, KeyIs(keyOf, k)) + (if keyOf(x) == k then [x] else [])
  {
    FilterAppend(xs, [x], KeyIs(keyOf, k));
    FilterSingleton(x, KeyIs(keyOf, k));
  }

  /** What the loop of `grouped` has built after the elements `xs`: the map
      from each key met to its elements in list order, and the keys in the
      order they were first met. */
  ghost predicate Collected<T(!new)>(m: map<string, seq<T>>, order: seq<string>, xs: seq<T>, keyOf: T -> string) {
    && (forall k :: Lookup(m, k) == Filter(xs, KeyIs(keyOf, k)))
    && (forall k :: k in m <==> k in order)
    && (forall k :: k in m ==> m[k] != [])
    && NoDup(order)
  }

  /** Appending `x` to the list of its key turns the lists of `xs` into
      those of `xs + [x]`. */
  lemma LookupStep<T(!new)>(m: map<string, seq<T>>, xs: seq<T>, x: T, keyOf: T -> string)
    requires forall k :: Lookup(m, k) == Filter(xs, KeyIs(keyOf, k))
    ensures forall k :: Lookup(m[keyOf(x) := Lookup(m, keyOf(x)) + [x]], k) == Filter(xs + [x], KeyIs(keyOf, k))
  {
    var next := m[keyOf(x) := Lookup(m, keyOf(x)) + [x]];
    forall k ensures Lookup(next, k) == Filter(xs + [x], KeyIs(keyOf, k)) {
      FilterSnoc(xs, x, keyOf, k);
    }
  }

  /** A new key can be recorded without making a repeat. */
  lemma NoDupSnoc(order: seq<string>, key: string)
    requires NoDup(order) && key !in order
    ensures NoDup(order + [key])
  {
    var o := order + [key];
    forall i, j | 0 <= i < j < |o| ensures o[i] != o[j] {
      if j == |order| {
        assert o[i] in order;
      }
    }
  }

  /** One step of the loop: appending `x` to the list of its key, and
      recording the key when it is new. */
  lemma CollectStep<T(!new)>(m: map<string, seq<T>>, order: seq<string>, xs: seq<T>, x: T, keyOf: T -> string)
    requires Collected(m, order, xs, keyOf)
    ensures var key := keyOf(x);
      Collected(m[key := Lookup(m, key) + [x]], if key in m then order else order + [key], xs + [x], keyOf)
  {
    var key := keyOf(x);
    var m' := m[key := Lookup(m, key) + [x]];
    var order' := if key in m then order else order + [key];
    LookupStep(m, xs, x, keyOf);
    assert forall k :: k in m' <==> k in order' by {
      assert forall k :: k in m' <==> k in m || k == key;
      assert forall k :: k in order' <==> k in order || k == key;
    }
    assert forall k :: k in m' ==> m'[k] != [] by {
      forall k | k in m' ensures m'[k] != [] {
        if k != key {
          assert m'[k] == m[k];
        }
      }
    }
    if key !in m {
      NoDupSnoc(order, key);
    }
  }

  /** What the loop of `grouped` holds after the elements `xs`, one
      element at a time. */
  function CollectOf<T>(xs: seq<T>, keyOf: T -> string): (map<string, seq<T>>, seq<string>)
    decreases |xs|
  {
    if xs == [] then (map[], [])
    else
      var (m, order) := CollectOf(xs[..|xs| - 1], keyOf);
      var x := xs[|xs| - 1];
      var key := keyOf(x);
      (m[key := Lookup(m, key) + [x]], if key in m then order else order + [key])
  }

  lemma {:induction false} CollectOfCollected<T(!new)>(xs: seq<T>, keyOf: T -> string)
    ensures Collected(CollectOf(xs, keyOf).0, CollectOf(xs, keyOf).1, xs, keyOf)
    decreases |xs|
  {
    if xs != [] {
      var init := xs[..|xs| - 1];
      CollectOfCollected(init, keyOf);
      var prev := CollectOf(init, keyOf);
      var x := xs[|xs| - 1];
      var key := keyOf(x);
      assert init + [x] == xs;
      assert CollectOf(xs, keyOf) == (prev.0[key := Lookup(prev.0, key) + [x]], if key in prev.0 then prev.1 else prev.1 + [key]);
      CollectStep(prev.0, prev.1, init, x, keyOf);
    }
  }

  /** The loop of `grouped`. */
  method Collect<T>(xs: seq<T>, keyOf: T -> string) returns (m: map<string, seq<T>>, order: seq<string>)
    ensures (m, order) == CollectOf(xs, keyOf)
  {
    m, order := map[], [];
    for i := 0 to |xs|
      invariant (m, order) == CollectOf(xs[..i], keyOf)
    {
      var x := xs[i];
      var key := keyOf(x);
      assert xs[..i + 1][..i] == xs[..i];
      if key !in m {
        order := order + [key];
      }
      m := m[key := Lookup(m, key) + [x]];
    }
    assert xs[..|xs|] == xs;
  }

  /** A sorted list without repeats is strictly increasing. */
  lemma SortedDistinct(keys: seq<string>)
    requires SortedBy(keys, StringOrder()) && NoDup(keys)
    ensures forall i, j :: 0 <= i < j < |keys| ==> Less(keys[i], keys[j])
  {
    forall i, j | 0 <= i < j < |keys| ensures Less(keys[i], keys[j]) {
      assert StringOrder()(keys[i], keys[j]);
    }
  }

  /** Sorting keeps a list free of repeats. */
  lemma SortNoDup(order: seq<string>)
    requires NoDup(order)
    ensures NoDup(SortStrings(order))
  {
    var keys := SortStrings(order);
    NoDupMultiset(order);
    NoDupMultiset(keys);
  }

  /** After sorting, the keys are those of the map, each paired with its
      elements, and every element's key is among them. */
  lemma KeysCovered<T(!new)>(m: map<string, seq<T>>, order: seq<string>, keys: seq<string>, xs: seq<T>, keyOf: T -> string)
    requires (m, order) == CollectOf(xs, keyOf)
    requires multiset(keys) == multiset(order)
    ensures forall i :: 0 <= i < |keys| ==> keys[i] in m && m[keys[i]] == Filter(xs, KeyIs(keyOf, keys[i]))
    ensures forall i :: 0 <= i < |keys| ==> m[keys[i]] != []
    ensures forall x :: x in xs ==> keyOf(x) in keys
  {
    CollectOfCollected(xs, keyOf);
    assert forall k :: k in keys <==> k in multiset(order);
    forall x | x in xs ensures keyOf(x) in keys {
      assert x in Filter(xs, KeyIs(keyOf, keyOf(x)));
    }
    forall i | 0 <= i < |keys| ensures keys[i] in m && m[keys[i]] == Filter(xs, KeyIs(keyOf, keys[i])) {
      assert keys[i] in keys;
      assert Lookup(m, keys[i]) == m[keys[i]];
    }
  }

  /** Each key paired with its elements. */
  function GroupsOf<T>(m: map<string, seq<T>>, keys: seq<string>): (groups: seq<Group<T>>)
    ensures |groups| == |keys|
    ensures forall i :: 0 <= i < |keys| ==> groups[i] == Group(keys[i], Lookup(m, keys[i]))
  {
    seq(|keys|, i requires 0 <= i < |keys| => Group(keys[i], Lookup(m, keys[i])))
  }

  /** The groups built from the collected map hold the elements of their
      key, are non-empty, and cover every element. */
  lemma GroupsOfContents<T(!new)>(xs: seq<T>, keyOf: T -> string, m: map<string, seq<T>>, order: seq<string>, keys: seq<string>)
    requires (m, order) == CollectOf(xs, keyOf)
    requires multiset(keys) == multiset(order)
    ensures forall i :: 0 <= i < |keys| ==> GroupsOf(m, keys)[i].rows == Filter(xs, KeyIs(keyOf, GroupsOf(m, keys)[i].key))
    ensures forall i :: 0 <= i < |keys| ==> GroupsOf(m, keys)[i].rows != []
    ensures forall x :: x in xs ==> exists i :: 0 <= i < |keys| && GroupsOf(m, keys)[i].key == keyOf(x)
  {
    KeysCovered(m, order, keys, xs, keyOf);
    var groups := GroupsOf(m, keys);
    forall x | x in xs ensures exists i :: 0 <= i < |keys| && groups[i].key == keyOf(x) {
      var i :| 0 <= i < |keys| && keys[i] == keyOf(x);
      assert groups[i].key == keyOf(x);
    }
  }

  /** The groups built from the sorted keys are in strictly ascending key
      order. */
  lemma GroupsOfAscending<T(!new)>(xs: seq<T>, keyOf: T -> string, m: map<string, seq<T>>, order: seq<string>)
    requires (m, order) == CollectOf(xs, keyOf)
    ensures var groups := GroupsOf(m, SortStrings(order));
      forall i, j :: 0 <= i < j < |groups| ==> Less(groups[i].key, groups[j].key)
  {
    var keys := SortStrings(order);
    CollectOfCollected(xs, keyOf);
    SortNoDup(order);
    SortedDistinct(keys);
  }

  /** `grouped`: the elements collected by key, then the keys sorted and
      each paired with its elements. Every group holds exactly the elements
      with its key, in list order; keys are strictly ascending, hence
      distinct; every element's key has a group, and no group is empty. */
  method Grouped<T(!new)>(xs: seq<T>, keyOf: T -> string) returns (groups: seq<Group<T>>)
    ensures forall i :: 0 <= i < |groups| ==> groups[i].rows == Filter(xs, KeyIs(keyOf, groups[i].key))
    ensures forall i :: 0 <= i < |groups| ==> groups[i].rows != []
    ensures forall i, j :: 0 <= i < j < |groups| ==> Less(groups[i].key, groups[j].key)
    ensures forall x :: x in xs ==> exists i :: 0 <= i < |groups| && groups[i].key == keyOf(x)
  {
    var m, order := Collect(xs, keyOf);
    var keys := SortStrings(order);
    GroupsOfContents(xs, keyOf, m, order, keys);
    GroupsOfAscending(xs, keyOf, m, order);
    groups := GroupsOf(m, keys);
  }

  /** The summary page's grouping of the listed rows. */
  method GroupedRows(rows: seq<Row>, mode: GroupMode) returns (groups: seq<Group<Row>>)
    ensures forall i :: 0 <= i < |groups| ==> groups[i].rows == Filter(rows, KeyIs(KeyOf(mode), groups[i].key))
    ensures forall i :: 0 <= i < |groups| ==> groups[i].rows != []
    ensures forall i, j :: 0 <= i < j < |groups| ==> Less(groups[i].key, groups[j].key)
    ensures forall r :: r in rows ==> exists i :: 0 <= i < |groups| && groups[i].key == GroupKey(mode, r)
  {
    groups := Grouped(rows, KeyOf(mode));
  }

  /** The elements of the groups, one group after the other. */
  function Flatten<T>(groups: seq<Group<T>>): seq<T> {
    if groups == [] then [] else groups[0].rows + Flatten(groups[1..])
  }

  function Keys<T>(groups: seq<Group<T>>): (keys: seq<string>)
    ensures |keys| == |groups|
    ensures forall i :: 0 <= i < |groups| ==> keys[i] == groups[i].key
  {
    seq(|groups|, i requires 0 <= i < |groups| => groups[i].key)
  }

  lemma {:induction false} FlattenOccurrences<T(!new)>(xs: seq<T>, keyOf: T -> string, groups: seq<Group<T>>, x: T)
    requires forall i :: 0 <= i < |groups| ==> groups[i].rows == Filter(xs, KeyIs(keyOf, groups[i].key))
    requires NoDup(Keys(groups))
    ensures multiset(Flatten(groups))[x] == if keyOf(x) in Keys(groups) then multiset(xs)[x] else 0
  {
    if groups != [] {
      var tail := groups[1..];
      assert Keys(tail) == Keys(groups)[1..];
      assert NoDup(Keys(tail));
      FlattenOccurrences(xs, keyOf, tail, x);
      FilterOccurs(xs, KeyIs(keyOf, groups[0].key));
      assert Keys(groups)[0] !in Keys(tail);
      assert Keys(groups) == [groups[0].key] + Keys(tail);
    }
  }

  lemma AscendingNoDup<T>(groups: seq<Group<T>>)
    requires forall i, j :: 0 <= i < j < |groups| ==> Less(groups[i].key, groups[j].key)
    ensures NoDup(Keys(groups))
  {
    var keys := Keys(groups);
    forall i, j | 0 <= i < j < |keys| ensures keys[i] != keys[j] {
      LessIrreflexive(keys[i]);
    }
  }

  lemma SameMultisetLength<T>(a: seq<T>, b: seq<T>)
    requires forall x :: multiset(a)[x] == multiset(b)[x]
    ensures multiset(a) == multiset(b) && |a| == |b|
  {
    assert multiset(a) == multiset(b);
    assert |multiset(a)| == |multiset(b)|;
  }

  /** Each element lands in exactly one group: taken together the groups
      are the elements, each as often as it was listed, so the group sizes
      add up to the number of elements. */
  lemma GroupsPartition<T(!new)>(xs: seq<T>, keyOf: T -> string, groups: seq<Group<T>>)
    requires forall i :: 0 <= i < |groups| ==> groups[i].rows == Filter(xs, KeyIs(keyOf, groups[i].key))
    requires forall i, j :: 0 <= i < j < |groups| ==> Less(groups[i].key, groups[j].key)
    requires forall x :: x in xs ==> exists i :: 0 <= i < |groups| && groups[i].key == keyOf(x)
    ensures multiset(Flatten(groups)) == multiset(xs)
    ensures |Flatten(groups)| == |xs|
  {
    var keys := Keys(groups);
    AscendingNoDup(groups);
    forall x ensures multiset(Flatten(groups))[x] == multiset(xs)[x] {
      FlattenOccurrences(xs, keyOf, groups, x);
      if x in xs {
        var i :| 0 <= i < |groups| && groups[i].key == keyOf(x);
        assert keys[i] == keyOf(x);
      }
    }
    SameMultisetLength(Flatten(groups), xs);
  }

  /** An element is in the group of its own key and in no other. */
  lemma GroupPlacement<T(!new)>(xs: seq<T>, keyOf: T -> string, g: Group<T>, x: T)
    requires g.rows == Filter(xs, KeyIs(keyOf, g.key))
    requires x in xs
    ensures x in g.rows <==> g.key == keyOf(x)
  {
  }

  /** Elements keep their list order inside a group; for the summary that
      is the date and time order of the query. */
  lemma GroupOrder<T(!new)>(xs: seq<T>, keyOf: T -> string, g: Group<T>)
    requires g.rows == Filter(xs, KeyIs(keyOf, g.key))
    ensures Subseq(g.rows, xs)
  {
    FilterSubseq(xs, KeyIs(keyOf, g.key));
  }
}
