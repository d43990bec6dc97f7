/** The multi-select of services on the booking form and the edit sheet:
    the search over Thai names, the badges of the chosen services and the
    toggling of a choice. */
module ServicesSelect {
  import opened Wrappers
  import opened Text
  import opened Seqs
  import opened Records

  /** `toggle`: a chosen id is dropped, every copy of it; any other id is
      appended at the end. */
  function Toggle(value: seq<string>, id: string): (r: seq<string>)
    ensures id in r <==> id !in value
    ensures forall x :: x != id ==> (x in r <==> x in value)
    ensures id in value ==> Subseq(r, value) && |r| == |value| - multiset(value)[id]
    ensures id !in value ==> |r| == |value| + 1 && r[..|value|] == value && r[|value|] == id
  {
    if id in value then
      FilterSubseq(value, NotEqual(id));
      FilterOutLength(value, id);
      Filter(value, NotEqual(id))
    else
      value + [id]
  }

  /** Toggling keeps a selection free of repeats. */
  lemma ToggleKeepsNoDup(value: seq<string>, id: string)
    requires NoDup(value)
    ensures NoDup(Toggle(value, id))
  {
    if id in value {
      FilterNoDup(value, NotEqual(id));
    } else {
      var r := Toggle(value, id);
      forall i, j | 0 <= i < j < |r| ensures r[i] != r[j] {
        if j == |value| {
          assert r[i] == value[i];
        } else {
          assert r[i] == value[i] && r[j] == value[j];
        }
      }
    }
  }

  /** Toggling the same id twice gives the selection back: exactly when the
      id was not chosen, and up to order when it was, since it then comes
      back at the end. */
  lemma ToggleTwice(value: seq<string>, id: string)
    requires NoDup(value)
    ensures multiset(Toggle(Toggle(value, id), id)) == multiset(value)
    ensures id !in value ==> Toggle(Toggle(value, id), id) == value
    ensures id in value ==> Toggle(Toggle(value, id), id) == Filter(value, NotEqual(id)) + [id]
  {
    var once := Toggle(value, id);
    if id in value {
      assert once == Filter(value, NotEqual(id)) && id !in once;
      assert Toggle(once, id) == once + [id];
      NoDupOccurs(value, id);
      FilterOutToEnd(value, id);
    } else {
      assert once == value + [id] && id in once;
      assert Toggle(once, id) == Filter(once, NotEqual(id));
      FilterAppend(value, [id], NotEqual(id));
      FilterSingleton(id, NotEqual(id));
      FilterAll(value, NotEqual(id));
    }
  }

  function NameHas(t: string): Service -> bool {
    (s: Service) => Contains(Lower(s.nameTh), t)
  }

  /** `filtered`: every service for a blank query; otherwise, in order, the
      services whose lower-cased Thai name contains the trimmed, lower-cased
      query. */
  function Filtered(services: seq<Service>, q: string): (r: seq<Service>)
    ensures AllSpace(q) ==> r == services
    ensures !AllSpace(q) ==> forall s :: s in r <==> s in services && Contains(Lower(s.nameTh), Lower(Trim(q)))
    ensures !AllSpace(q) ==> |r| == Count(services, NameHas(Lower(Trim(q))))
    ensures Subseq(r, services)
  {
    var t := Lower(Trim(q));
    if t == [] then
      SubseqRefl(services);
      services
    else
      FilterSubseq(services, NameHas(t));
      Filter(services, NameHas(t))
  }

  /** Position `i` holds the last service with that id. */
  predicate IsLastWith(services: seq<Service>, id: string, i: int) {
    0 <= i < |services| && services[i].id == id && forall j :: i < j < |services| ==> services[j].id != id
  }

  /** The Thai name of the last service with that id: the one a `Map` built
      from the list keeps. */
  function LastName(services: seq<Service>, id: string): (r: Option<string>)
    ensures r.None? <==> forall s :: s in services ==> s.id != id
    ensures r.Some? ==> exists s :: s in services && s.id == id && s.nameTh == r.value
    ensures r.Some? ==> exists i :: IsLastWith(services, id, i) && services[i].nameTh == r.value
    decreases |services|
  {
    if services == [] then None
    else
      var init, last := services[..|services| - 1], services[|services| - 1];
      assert services == init + [last];
      if last.id == id then
        assert IsLastWith(services, id, |services| - 1);
        Some(last.nameTh)
      else
        var r := LastName(init, id);
        if r.Some? then
          var i :| IsLastWith(init, id, i) && init[i].nameTh == r.value;
          assert services[i] == init[i];
          assert forall j :: i < j < |services| ==> services[j].id != id by {
            forall j | i < j < |services| ensures services[j].id != id {
              if j < |init| { assert services[j] == init[j]; }
            }
          }
          assert IsLastWith(services, id, i);
          r
        else r
  }

  /** `new Map(services.map(s => [s.id, s.name_th]))`, entry by entry; a
      later entry with the same id replaces an earlier one. */
  function NameMap(services: seq<Service>): (m: map<string, string>)
    ensures forall id :: id in m <==> LastName(services, id).Some?
    ensures forall id :: id in m ==> m[id] == LastName(services, id).value
    decreases |services|
  {
    if services == [] then map[]
    else
      var init, last := services[..|services| - 1], services[|services| - 1];
      NameMap(init)[last.id := last.nameTh]
  }

  /** `value.map(id => m.get(id))`, an id without a service giving the
      empty string, which the next filter drops just as it drops
      `undefined`. */
  function Looked(m: map<string, string>, value: seq<string>): (r: seq<string>)
    ensures |r| == |value|
    ensures forall i :: 0 <= i < |value| ==> r[i] == if value[i] in m then m[value[i]] else []
  {
    seq(|value|, i requires 0 <= i < |value| => if value[i] in m then m[value[i]] else [])
  }

  function Named(): string -> bool {
    n => n != []
  }

  /** A non-empty name is looked up exactly when some chosen id's last
      service carries it. */
  lemma LookedNames(services: seq<Service>, value: seq<string>)
    ensures forall n :: n != [] ==> (n in Looked(NameMap(services), value) <==>
      exists i :: 0 <= i < |value| && LastName(services, value[i]) == Some(n))
  {
    var looked := Looked(NameMap(services), value);
    forall n | n != []
      ensures n in looked <==> exists i :: 0 <= i < |value| && LastName(services, value[i]) == Some(n)
    {
      if n in looked {
        var i :| 0 <= i < |value| && looked[i] == n;
        assert LastName(services, value[i]) == Some(n);
      }
      if exists i :: 0 <= i < |value| && LastName(services, value[i]) == Some(n) {
        var i :| 0 <= i < |value| && LastName(services, value[i]) == Some(n);
        assert looked[i] == n;
      }
    }
  }

  /** `selectedNames`: the names of the chosen services, dropping ids with
      no service and empty names. A name is listed exactly when some chosen
      id names it. */
  function SelectedNames(services: seq<Service>, value: seq<string>): (r: seq<string>)
    ensures |r| <= |value|
    ensures forall n :: n in r ==> n != []
    ensures forall n :: n in r <==> n != [] && exists i :: 0 <= i < |value| && LastName(services, value[i]) == Some(n)
  {
    var looked := Looked(NameMap(services), value);
    LookedNames(services, value);
    Filter(looked, Named())
  }

  /** When every chosen id has a service with a non-empty name, the badges
      are those names, one per chosen id, in the order they were chosen. */
  lemma SelectedNamesInOrder(services: seq<Service>, value: seq<string>)
    requires forall i :: 0 <= i < |value| ==> LastName(services, value[i]).Some? && LastName(services, value[i]).value != []
    ensures |SelectedNames(services, value)| == |value|
    ensures forall i :: 0 <= i < |value| ==> SelectedNames(services, value)[i] == LastName(services, value[i]).value
  {
    var looked := Looked(NameMap(services), value);
    FilterAll(looked, Named());
  }

  /** Choosing one more id adds one badge at the end, its service's name,
      exactly when the id has a service with a non-empty name; so the
      badges follow the selection order, one per id that resolves to a
      name, and ids that do not resolve are skipped. */
  lemma SelectedNamesAppend(services: seq<Service>, value: seq<string>, id: string)
    ensures SelectedNames(services, value + [id]) == SelectedNames(services, value) +
      (if LastName(services, id).Some? && LastName(services, id).value != [] then [LastName(services, id).value] else [])
  {
    var m := NameMap(services);
    assert Looked(m, value + [id]) == Looked(m, value) + Looked(m, [id]);
    FilterAppend(Looked(m, value), Looked(m, [id]), Named());
    assert Looked(m, [id]) == [Looked(m, [id])[0]];
    FilterSingleton(Looked(m, [id])[0], Named());
  }

  /** No id chosen, no badge. */
  lemma SelectedNamesEmpty(services: seq<Service>)
    ensures SelectedNames(services, []) == []
  {
    assert Looked(NameMap(services), []) == [];
  }
}
