/**
 * The `preSave` of the UK address element plugins: before a submission is
 * saved, every address element of the plugin's type loses its
 * `address_lookup` part, and the top-level `lat`, `lng` and `ward` values are
 * dropped.
 *
 * `unset($data[$key]['address_lookup'])` follows PHP 8: on an array it removes
 * the entry, on a missing, NULL or false value it does nothing, and on a
 * string, a number, `true` or an object it throws, so the data is not saved.
 */
module AddressPreSave {
  import opened Php
  import UKAddressLookupElement

  const LookupKey: Key := UKAddressLookupElement.LookupKey

  /** The submission values `preSave` removes once an address element is found. */
  const ExtraKeys: seq<Key> := [StrKey("lat"), StrKey("lng"), StrKey("ward")]

  /** Whether the element called `k` has the plugin's type (`$element['#type'] == $type`). */
  predicate Typed(typeOf: Key -> Value, elementType: string, k: Key)
  {
    LooseEqualsLiteral(typeOf(k), elementType)
  }

  /** A value `unset($v['address_lookup'])` accepts. */
  predicate Unsettable(v: Option<Value>)
  {
    v.None? || v.value.Null? || v.value == Bool(false) || v.value.Arr?
  }

  /** `unset($data[$key]['address_lookup'])`, None when PHP throws. */
  function WithoutLookup(data: Entries, key: Key): (r: Option<Entries>)
    ensures r.None? <==> !Unsettable(Lookup(data, key))
  {
    match Lookup(data, key)
    case None => Some(data)
    case Some(v) =>
      if v.Arr? then Some(Put(data, key, Arr(Remove(v.entries, LookupKey))))
      else if v.Null? || v == Bool(false) then Some(data)
      else None
  }

  /** `unset($data[$k])` for each `k` of `keys`, in order. */
  function RemoveAll(data: Entries, keys: seq<Key>): Entries
  {
    if keys == [] then data else Remove(RemoveAll(data, keys[..|keys| - 1]), keys[|keys| - 1])
  }

  lemma {:induction false} RemoveAllLookup(data: Entries, keys: seq<Key>, k: Key)
    ensures Lookup(RemoveAll(data, keys), k) == if k in keys then None else Lookup(data, k)
  {
    if keys != [] {
      var init, last := keys[..|keys| - 1], keys[|keys| - 1];
      assert keys == init + [last];
      RemoveAllLookup(data, init, k);
      if k != last {
        RemoveLookup(RemoveAll(data, init), last, k);
      }
    }
  }

  /** One pass of the loop body over the value submitted under `k`; None once PHP has thrown. */
  function Visit(data: Option<Entries>, k: Key, typeOf: Key -> Value, elementType: string): Option<Entries>
  {
    if data.None? then None
    else if !Typed(typeOf, elementType, k) then data
    else
      match WithoutLookup(data.value, k)
      case None => None
      case Some(d) => Some(RemoveAll(d, ExtraKeys))
  }

  /** The submission data after the loop has visited `keys`, None once PHP has thrown. */
  function Stripped(data: Entries, keys: seq<Key>, typeOf: Key -> Value, elementType: string): Option<Entries>
  {
    if keys == [] then Some(data)
    else Visit(Stripped(data, keys[..|keys| - 1], typeOf, elementType), keys[|keys| - 1], typeOf, elementType)
  }

  lemma StrippedPrefix(data: Entries, keys: seq<Key>, typeOf: Key -> Value, elementType: string, i: nat)
    requires i < |keys|
    ensures Stripped(data, keys[..i + 1], typeOf, elementType) ==
      Visit(Stripped(data, keys[..i], typeOf, elementType), keys[i], typeOf, elementType)
  {
    assert keys[..i + 1][..i] == keys[..i];
  }

  predicate Distinct(keys: seq<Key>)
  {
    forall i, j :: 0 <= i < j < |keys| ==> keys[i] != keys[j]
  }

  predicate AnyTyped(keys: seq<Key>, typeOf: Key -> Value, elementType: string)
  {
    exists k :: k in keys && Typed(typeOf, elementType, k)
  }

  /** A value with its `address_lookup` entry removed when it is an array. */
  function Unlinked(v: Option<Value>): Option<Value>
  {
    if v.Some? && v.value.Arr? then Some(Arr(Remove(v.value.entries, LookupKey))) else v
  }

  /**
   * The value under `k` once `keys` are visited: an extra value is gone as soon
   * as one address element is found, an address element loses its lookup part,
   * and everything else is as submitted.
   */
  function Expected(data: Entries, keys: seq<Key>, typeOf: Key -> Value, elementType: string, k: Key): Option<Value>
  {
    if k in ExtraKeys && AnyTyped(keys, typeOf, elementType) then None
    else if k in keys && Typed(typeOf, elementType, k) then Unlinked(Lookup(data, k))
    else Lookup(data, k)
  }

  /**
   * The visit of `keys[i]` throws: it is an address element whose value cannot
   * lose an offset, and it was not already removed as an extra value.
   */
  predicate BreaksAt(data: Entries, keys: seq<Key>, typeOf: Key -> Value, elementType: string, i: int)
    requires 0 <= i < |keys|
  {
    Typed(typeOf, elementType, keys[i])
    && !Unsettable(Lookup(data, keys[i]))
    && !(keys[i] in ExtraKeys && AnyTyped(keys[..i], typeOf, elementType))
  }

  lemma DistinctInit(keys: seq<Key>)
    requires Distinct(keys) && keys != []
    ensures Distinct(keys[..|keys| - 1])
    ensures keys[|keys| - 1] !in keys[..|keys| - 1]
  {
    var n := |keys| - 1;
    forall i | 0 <= i < n ensures keys[..n][i] != keys[n] {
      assert keys[..n][i] == keys[i];
    }
  }

  /** One visit of an address element: where each value ends up. */
  lemma StepLookup(d: Entries, key: Key, k: Key)
    requires WithoutLookup(d, key).Some?
    ensures Lookup(RemoveAll(WithoutLookup(d, key).value, ExtraKeys), k) ==
      if k in ExtraKeys then None else if k == key then Unlinked(Lookup(d, key)) else Lookup(d, k)
  {
    RemoveAllLookup(WithoutLookup(d, key).value, ExtraKeys, k);
    var v := Lookup(d, key);
    if v.Some? && v.value.Arr? {
      PutLookup(d, key, Arr(Remove(v.value.entries, LookupKey)), k);
    }
  }

  /** Once the loop has thrown, it stays thrown. */
  lemma {:induction false} StrippedThrown(data: Entries, keys: seq<Key>, typeOf: Key -> Value, elementType: string, n: nat)
    requires n <= |keys|
    requires Stripped(data, keys[..n], typeOf, elementType).None?
    ensures Stripped(data, keys, typeOf, elementType).None?
  {
    if n < |keys| {
      var init := keys[..|keys| - 1];
      assert init[..n] == keys[..n];
      StrippedThrown(data, init, typeOf, elementType, n);
    } else {
      assert keys[..n] == keys;
    }
  }

  /** After the loop has visited `keys` without throwing, every value is as `Expected` says. */
  lemma {:induction false} StrippedValues(data: Entries, keys: seq<Key>, typeOf: Key -> Value, elementType: string, k: Key)
    requires Distinct(keys)
    requires Stripped(data, keys, typeOf, elementType).Some?
    ensures Lookup(Stripped(data, keys, typeOf, elementType).value, k) == Expected(data, keys, typeOf, elementType, k)
  {
    if keys == [] {
      return;
    }
    var n := |keys| - 1;
    var init, last := keys[..n], keys[n];
    assert keys == init + [last];
    DistinctInit(keys);
    StrippedValues(data, init, typeOf, elementType, k);
    var d := Stripped(data, init, typeOf, elementType).value;
    if !Typed(typeOf, elementType, last) {
      assert AnyTyped(keys, typeOf, elementType) == AnyTyped(init, typeOf, elementType);
      return;
    }
    assert AnyTyped(keys, typeOf, elementType) by {
      assert last in keys;
    }
    StrippedValues(data, init, typeOf, elementType, last);
    StepLookup(d, last, k);
  }

  /** The loop throws exactly when some visit breaks. */
  lemma {:induction false} StrippedFails(data: Entries, keys: seq<Key>, typeOf: Key -> Value, elementType: string)
    requires Distinct(keys)
    ensures Stripped(data, keys, typeOf, elementType).None? <==>
      exists i :: 0 <= i < |keys| && BreaksAt(data, keys, typeOf, elementType, i)
  {
    if keys == [] {
      return;
    }
    var n := |keys| - 1;
    var init, last := keys[..n], keys[n];
    assert keys == init + [last];
    DistinctInit(keys);
    StrippedFails(data, init, typeOf, elementType);
    forall i | 0 <= i < n
      ensures BreaksAt(data, keys, typeOf, elementType, i) == BreaksAt(data, init, typeOf, elementType, i)
    {
      assert keys[..i] == init[..i];
    }
    var prev := Stripped(data, init, typeOf, elementType);
    if prev.None? {
      return;
    }
    if !Typed(typeOf, elementType, last) {
      assert !BreaksAt(data, keys, typeOf, elementType, n);
      return;
    }
    StrippedValues(data, init, typeOf, elementType, last);
    assert WithoutLookup(prev.value, last).None? <==> BreaksAt(data, keys, typeOf, elementType, n);
  }

  /** The keys of a PHP array are distinct. */
  lemma KeysDistinct(data: Entries)
    requires UniqueKeys(data)
    ensures Distinct(Keys(data))
  {
  }

  /**
   * Over a whole submission: the save throws exactly when some visit breaks,
   * and otherwise each value ends up as `Expected` says.
   */
  lemma PreSaveOutcome(data: Entries, typeOf: Key -> Value, elementType: string, k: Key)
    requires UniqueKeys(data)
    ensures var s := Stripped(data, Keys(data), typeOf, elementType);
      (s.None? <==> exists i :: 0 <= i < |data| && BreaksAt(data, Keys(data), typeOf, elementType, i))
      && (s.Some? ==> Lookup(s.value, k) == Expected(data, Keys(data), typeOf, elementType, k))
  {
    KeysDistinct(data);
    StrippedFails(data, Keys(data), typeOf, elementType);
    if Stripped(data, Keys(data), typeOf, elementType).Some? {
      StrippedValues(data, Keys(data), typeOf, elementType, k);
    }
  }

  /** A submission, with the number of times its data was stored. */
  class WebformSubmission {
    var data: Entries
    var dataWrites: nat

    constructor(data: Entries)
      ensures this.data == data && dataWrites == 0
    {
      this.data := data;
      dataWrites := 0;
    }

    /** `getData`. */
    method GetData() returns (d: Entries)
      ensures d == data
    {
      d := data;
    }

    /** `setData`. */
    method SetData(d: Entries)
      modifies this
      ensures data == d && dataWrites == old(dataWrites) + 1
    {
      data := d;
      dataWrites := dataWrites + 1;
    }
  }

  /** The loop over the extra values. */
  method UnsetExtras(data: Entries) returns (r: Entries)
    ensures r == RemoveAll(data, ExtraKeys)
  {
    r := data;
    var extras := ExtraKeys;
    for i := 0 to |extras|
      invariant r == RemoveAll(data, extras[..i])
    {
      assert extras[..i + 1][..i] == extras[..i];
      r := Remove(r, extras[i]);
    }
    assert extras[..|extras|] == extras;
  }

  /** The loop body for the value submitted under `key`; None when PHP throws. */
  method VisitValue(data: Entries, key: Key, typeOf: Key -> Value, elementType: string) returns (r: Option<Entries>)
    ensures r == Visit(Some(data), key, typeOf, elementType)
  {
    r := Some(data);
    if LooseEqualsLiteral(typeOf(key), elementType) {
      var stripped := WithoutLookup(data, key);
      if stripped.None? {
        return None;
      }
      var rest := UnsetExtras(stripped.value);
      r := Some(rest);
    }
  }

  /**
   * The body every plugin's `preSave` shares: visit each submitted value, strip
   * the address elements of `elementType`, then store the data once. `failed`
   * is PHP throwing, which leaves the submission as it was.
   */
  method StripAddressData(submission: WebformSubmission, typeOf: Key -> Value, elementType: string) returns (failed: bool)
    modifies submission
    ensures var s := Stripped(old(submission.data), Keys(old(submission.data)), typeOf, elementType);
      if failed then s.None? && submission.data == old(submission.data)
      else s == Some(submission.data)
    ensures submission.dataWrites == old(submission.dataWrites) + (if failed then 0 else 1)
  {
    var original := submission.GetData();
    var data := original;
    var keys := Keys(original);
    for i := 0 to |original|
      invariant Stripped(original, keys[..i], typeOf, elementType) == Some(data)
      invariant submission.data == original && submission.dataWrites == old(submission.dataWrites)
    {
      StrippedPrefix(original, keys, typeOf, elementType, i);
      var next := VisitValue(data, original[i].0, typeOf, elementType);
      if next.None? {
        StrippedThrown(original, keys, typeOf, elementType, i + 1);
        return true;
      }
      data := next.value;
    }
    assert keys[..|original|] == keys;
    submission.SetData(data);
    return false;
  }

  /** A string value under an address element makes the save throw. */
  lemma StringValueThrows(typeOf: Key -> Value, elementType: string)
    requires typeOf(StrKey("address")) == Str(elementType)
    ensures Stripped([(StrKey("address"), Str("1 High Street"))], [StrKey("address")], typeOf, elementType).None?
  {
    var data := [(StrKey("address"), Str("1 High Street"))];
    assert [StrKey("address")][..0] == [];
    assert Lookup(data, StrKey("address")) == Some(Str("1 High Street"));
  }

  // ---------------------------------------------------------------------
  // The extra values inside an address element

  /**
   * The loop unsets `lat`, `lng` and `ward` at the top level of the data,
   * while the address composite stores them inside the address value: there
   * they survive the save, and the submission tokens for them keep their
   * values.
   */
  lemma ExtrasInsideAddressKept(data: Entries, typeOf: Key -> Value, elementType: string, key: Key, extra: Key)
    requires UniqueKeys(data)
    requires key in Keys(data) && key !in ExtraKeys && Typed(typeOf, elementType, key)
    requires Lookup(data, key).Some? && Lookup(data, key).value.Arr?
    requires extra in ExtraKeys
    requires Stripped(data, Keys(data), typeOf, elementType).Some?
    ensures var v := Lookup(Stripped(data, Keys(data), typeOf, elementType).value, key);
      v.Some? && v.value.Arr? && Lookup(v.value.entries, extra) == Lookup(Lookup(data, key).value.entries, extra)
  {
    PreSaveOutcome(data, typeOf, elementType, key);
    RemoveLookup(Lookup(data, key).value.entries, LookupKey, extra);
  }

  /**
   * The top-level unset does not look at which element a value belongs to:
   * once an address element is found, a value of another element that is
   * called `lat`, `lng` or `ward` is dropped from the save.
   */
  lemma OtherElementExtraDropped(data: Entries, typeOf: Key -> Value, elementType: string, key: Key, extra: Key)
    requires UniqueKeys(data)
    requires key in Keys(data) && Typed(typeOf, elementType, key)
    requires extra in ExtraKeys && !Typed(typeOf, elementType, extra)
    requires Stripped(data, Keys(data), typeOf, elementType).Some?
    ensures Lookup(Stripped(data, Keys(data), typeOf, elementType).value, extra).None?
  {
    PreSaveOutcome(data, typeOf, elementType, extra);
    assert AnyTyped(Keys(data), typeOf, elementType);
  }

  /** A text field called `ward` next to an address element: its value is not saved. */
  lemma WardFieldDropped(typeOf: Key -> Value, elementType: string)
    requires typeOf(StrKey("address")) == Str(elementType)
    requires !Typed(typeOf, elementType, StrKey("ward"))
    ensures var data := [(StrKey("address"), Arr([])), (StrKey("ward"), Str("Central"))];
      var s := Stripped(data, Keys(data), typeOf, elementType);
      s.Some? && Lookup(s.value, StrKey("ward")).None? && Lookup(s.value, StrKey("address")) == Some(Arr([]))
  {
    var data := [(StrKey("address"), Arr([])), (StrKey("ward"), Str("Central"))];
    var keys := Keys(data);
    assert keys == [StrKey("address"), StrKey("ward")];
    assert Lookup(data, StrKey("address")) == Some(Arr([]));
    assert !BreaksAt(data, keys, typeOf, elementType, 0);
    assert !BreaksAt(data, keys, typeOf, elementType, 1);
    PreSaveOutcome(data, typeOf, elementType, StrKey("address"));
    OtherElementExtraDropped(data, typeOf, elementType, StrKey("address"), StrKey("ward"));
  }
}
