/**
 * The address the Ordnance Survey Places geocoder returns: a geocoder
 * library Address extended with a Unique Property Reference Number and the
 * full address on one line.
 */
module LocalgovAddress {
  import opened Php

  /**
   * `base` stands for what the library Address built from the same data
   * lists in its own `toArray`; the library class is not part of this model.
   * The two properties are untyped, so any value can be stored in them.
   */
  datatype Address = Address(base: Entries, uprn: Value, displayName: Value)

  const UprnKey: Key := StrKey("uprn")
  const DisplayKey: Key := StrKey("display")

  /** An address made without `createFromArray` keeps both defaults. */
  function Blank(base: Entries): (a: Address)
    ensures GetUprn(a) == Some("") && GetDisplayName(a) == Some("")
  {
    Address(base, Str(""), Str(""))
  }

  /** `createFromArray`: the UPRN and the display name come from the data, '' when absent or NULL. */
  function CreateFromArray(data: Entries, base: Entries): (a: Address)
    ensures a.uprn == (if Lookup(data, UprnKey).Some? && Lookup(data, UprnKey).value != Null then Lookup(data, UprnKey).value else Str(""))
    ensures a.displayName == (if Lookup(data, DisplayKey).Some? && Lookup(data, DisplayKey).value != Null then Lookup(data, DisplayKey).value else Str(""))
  {
    Address(base, Coalesce(Arr(data), UprnKey, Str("")), Coalesce(Arr(data), DisplayKey, Str("")))
  }

  /** `getUprn(): string` under strict types: a UPRN that is not a string is a TypeError (None). */
  function GetUprn(a: Address): (r: Option<string>)
    ensures r.Some? <==> a.uprn.Str?
    ensures r.Some? ==> a.uprn == Str(r.value)
  {
    if a.uprn.Str? then Some(a.uprn.s) else None
  }

  function GetDisplayName(a: Address): (r: Option<string>)
    ensures r.Some? <==> a.displayName.Str?
    ensures r.Some? ==> a.displayName == Str(r.value)
  {
    if a.displayName.Str? then Some(a.displayName.s) else None
  }

  /** `toArray`: the library's array with `uprn` and `display` set from the getters (None on their TypeError). */
  function ToArray(a: Address): (r: Option<Entries>)
    ensures r.Some? <==> GetUprn(a).Some? && GetDisplayName(a).Some?
  {
    match (GetUprn(a), GetDisplayName(a))
    case (Some(u), Some(d)) => Some(Put(Put(a.base, UprnKey, Str(u)), DisplayKey, Str(d)))
    case _ => None
  }

  /**
   * `toArray` lists the getters under `uprn` and `display`, overriding any
   * entry of the library's array under those keys, and keeps every other entry.
   */
  lemma ToArrayEntries(a: Address, k: Key)
    requires ToArray(a).Some?
    ensures k == UprnKey ==> Lookup(ToArray(a).value, k) == Some(Str(GetUprn(a).value))
    ensures k == DisplayKey ==> Lookup(ToArray(a).value, k) == Some(Str(GetDisplayName(a).value))
    ensures k != UprnKey && k != DisplayKey ==> Lookup(ToArray(a).value, k) == Lookup(a.base, k)
  {
    var u, d := GetUprn(a).value, GetDisplayName(a).value;
    PutLookup(a.base, UprnKey, Str(u), k);
    PutLookup(Put(a.base, UprnKey, Str(u)), DisplayKey, Str(d), k);
  }

  /**
   * The round trip: what `toArray` lists under `uprn` and `display` is what
   * the data held under those keys, '' when it held nothing or NULL.
   */
  lemma CreateToArray(data: Entries, base: Entries, k: Key)
    requires Coalesce(Arr(data), UprnKey, Str("")).Str? && Coalesce(Arr(data), DisplayKey, Str("")).Str?
    requires k == UprnKey || k == DisplayKey
    ensures ToArray(CreateFromArray(data, base)).Some?
    ensures Lookup(ToArray(CreateFromArray(data, base)).value, k) == Some(Coalesce(Arr(data), k, Str("")))
  {
    ToArrayEntries(CreateFromArray(data, base), k);
  }
}
