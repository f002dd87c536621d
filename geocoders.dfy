/**
 * Which geocoder plugins a webform element may use: the installed geocoder
 * providers, and those of them an element selected.  The geocoder_provider
 * entity storage is a parameter: its entities in storage order, each id once.
 * An array keyed by entity id is a list of (id, value) pairs.
 */
module Geocoders {
  import opened Php

  /** A geocoder_provider config entity: its machine name and its label (`name`). */
  datatype Provider = Provider(id: string, name: string)

  function Ids(storage: seq<Provider>): (r: seq<string>)
    ensures |r| == |storage| && forall i :: 0 <= i < |r| ==> r[i] == storage[i].id
  {
    if storage == [] then [] else [storage[0].id] + Ids(storage[1..])
  }

  /**
   * `loadMultiple($ids)`: the entities whose id is listed, keyed by id, in
   * storage order; `None` (no argument) loads them all.
   */
  function LoadMultiple(storage: seq<Provider>, ids: Option<seq<string>>): seq<(string, Provider)>
  {
    if storage == [] then []
    else
      var rest := LoadMultiple(storage[1..], ids);
      if ids.None? || storage[0].id in ids.value then [(storage[0].id, storage[0])] + rest else rest
  }

  /** The values of an array, in order. */
  function Values<T>(a: seq<(string, T)>): (r: seq<T>)
    ensures |r| == |a| && forall i :: 0 <= i < |a| ==> r[i] == a[i].1
  {
    if a == [] then [] else [a[0].1] + Values(a[1..])
  }

  /** `array_map` over an array keyed by id, keeping the keys. */
  function MapLabels(loaded: seq<(string, Provider)>): (r: seq<(string, string)>)
    ensures |r| == |loaded| && forall i :: 0 <= i < |r| ==> r[i] == (loaded[i].0, loaded[i].1.name)
  {
    if loaded == [] then [] else [(loaded[0].0, loaded[0].1.name)] + MapLabels(loaded[1..])
  }

  function MapIds(loaded: seq<(string, Provider)>): (r: seq<(string, string)>)
    ensures |r| == |loaded| && forall i :: 0 <= i < |r| ==> r[i] == (loaded[i].0, loaded[i].1.id)
  {
    if loaded == [] then [] else [(loaded[0].0, loaded[0].1.id)] + MapIds(loaded[1..])
  }

  /** `listInstalledPluginNames`: the label of every installed provider, keyed by its id. */
  function ListInstalledPluginNames(storage: seq<Provider>): seq<(string, string)>
  {
    MapLabels(LoadMultiple(storage, None))
  }

  /** `listInstalledPluginIds`: the id of every installed provider, keyed by itself. */
  function ListInstalledPluginIds(storage: seq<Provider>): seq<(string, string)>
  {
    MapIds(LoadMultiple(storage, None))
  }

  /**
   * `array_intersect($a, $values)`: the entries of `$a` whose value is among
   * `$values`, with their keys, in the order of `$a`.
   */
  function Intersect(a: seq<(string, string)>, values: seq<string>): seq<(string, string)>
  {
    if a == [] then []
    else if a[0].1 in values then [a[0]] + Intersect(a[1..], values)
    else Intersect(a[1..], values)
  }

  /** `listSelectedAndAvailablePluginIds`. */
  function ListSelectedAndAvailablePluginIds(storage: seq<Provider>, selected: seq<string>): seq<(string, string)>
  {
    Intersect(ListInstalledPluginIds(storage), selected)
  }

  /** `getSelectedPlugins`: the provider entities loaded for the filtered ids. */
  function GetSelectedPlugins(storage: seq<Provider>, selected: seq<string>): seq<(string, Provider)>
  {
    LoadMultiple(storage, Some(Values(ListSelectedAndAvailablePluginIds(storage, selected))))
  }

  // ---------------------------------------------------------------------
  // Properties

  /** `x` is `y` with some entries left out, the rest kept in order. */
  predicate Subsequence<T(==)>(x: seq<T>, y: seq<T>)
    decreases |y|
  {
    x == [] || (y != [] && ((x[0] == y[0] && Subsequence(x[1..], y[1..])) || Subsequence(x, y[1..])))
  }

  /** Loading all entities lists every entity under its own id, in storage order. */
  lemma {:induction false} LoadAll(storage: seq<Provider>)
    ensures LoadMultiple(storage, None) == seq(|storage|, i requires 0 <= i < |storage| => (storage[i].id, storage[i]))
  {
    if storage != [] {
      LoadAll(storage[1..]);
    }
  }

  /** The installed names and the installed ids are keyed alike: by the ids in storage order. */
  lemma InstalledSameKeys(storage: seq<Provider>)
    ensures |ListInstalledPluginNames(storage)| == |ListInstalledPluginIds(storage)| == |storage|
    ensures forall i :: 0 <= i < |storage| ==>
      ListInstalledPluginNames(storage)[i] == (storage[i].id, storage[i].name)
      && ListInstalledPluginIds(storage)[i] == (storage[i].id, storage[i].id)
  {
    LoadAll(storage);
  }

  /** `array_intersect` keeps exactly the entries whose value is among the given values ... */
  lemma {:induction false} IntersectMembers(a: seq<(string, string)>, values: seq<string>, e: (string, string))
    ensures e in Intersect(a, values) <==> e in a && e.1 in values
  {
    if a != [] {
      IntersectMembers(a[1..], values, e);
      assert a == [a[0]] + a[1..];
    }
  }

  /** ... and keeps them in the order of the first array. */
  lemma {:induction false} IntersectOrder(a: seq<(string, string)>, values: seq<string>)
    ensures Subsequence(Intersect(a, values), a)
  {
    if a != [] {
      IntersectOrder(a[1..], values);
      var r := Intersect(a, values);
      if a[0].1 in values {
        assert r[0] == a[0] && r[1..] == Intersect(a[1..], values);
      }
    }
  }

  /** Only which values are given matters, not their order nor their repetition. */
  lemma {:induction false} IntersectSetOnly(a: seq<(string, string)>, v1: seq<string>, v2: seq<string>)
    requires forall x :: x in v1 <==> x in v2
    ensures Intersect(a, v1) == Intersect(a, v2)
  {
    if a != [] {
      IntersectSetOnly(a[1..], v1, v2);
    }
  }

  /**
   * The selected and available ids are exactly the installed ids that were
   * selected, each keyed by itself, in storage order.
   */
  lemma SelectedAndAvailable(storage: seq<Provider>, selected: seq<string>, e: (string, string))
    ensures e in ListSelectedAndAvailablePluginIds(storage, selected)
      <==> e.0 == e.1 && e.1 in Ids(storage) && e.1 in selected
    ensures Subsequence(ListSelectedAndAvailablePluginIds(storage, selected), ListInstalledPluginIds(storage))
  {
    InstalledSameKeys(storage);
    IntersectMembers(ListInstalledPluginIds(storage), selected, e);
    IntersectOrder(ListInstalledPluginIds(storage), selected);
    if e.0 == e.1 && e.1 in Ids(storage) {
      var i :| 0 <= i < |storage| && Ids(storage)[i] == e.1;
      assert ListInstalledPluginIds(storage)[i] == e;
    }
  }

  /** What `loadMultiple` returns for a list of ids: the entities with those ids. */
  lemma {:induction false} LoadMultipleMembers(storage: seq<Provider>, ids: seq<string>, e: (string, Provider))
    ensures e in LoadMultiple(storage, Some(ids)) <==> e.1 in storage && e.0 == e.1.id && e.1.id in ids
  {
    if storage != [] {
      LoadMultipleMembers(storage[1..], ids, e);
      assert storage == [storage[0]] + storage[1..];
    }
  }

  /**
   * `getSelectedPlugins` loads exactly the installed providers that were
   * selected, each keyed by its id.
   */
  lemma GetSelected(storage: seq<Provider>, selected: seq<string>, e: (string, Provider))
    ensures e in GetSelectedPlugins(storage, selected) <==> e.1 in storage && e.0 == e.1.id && e.1.id in selected
  {
    var filtered := ListSelectedAndAvailablePluginIds(storage, selected);
    LoadMultipleMembers(storage, Values(filtered), e);
    if e.1 in storage && e.1.id in selected {
      var i :| 0 <= i < |storage| && storage[i] == e.1;
      assert Ids(storage)[i] == e.1.id;
      SelectedAndAvailable(storage, selected, (e.1.id, e.1.id));
      var j :| 0 <= j < |filtered| && filtered[j] == (e.1.id, e.1.id);
      assert Values(filtered)[j] == e.1.id;
    }
    if e.1.id in Values(filtered) {
      var j :| 0 <= j < |filtered| && Values(filtered)[j] == e.1.id;
      SelectedAndAvailable(storage, selected, filtered[j]);
    }
  }
}
