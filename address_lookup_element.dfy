/**
 * The address lookup form element: a search box, a search button and a
 * select list of the addresses found.  The class keeps, across calls, the
 * last search string, the last address type and the last results, so that
 * repeating a search does not call the lookup service again.
 */
module AddressLookupElement {
  import opened Php

  const EnterPostcodeMarkup: string :=
    "<p class=\"localgov-forms-alert localgov-forms-alert-info js-address-error\">Please enter a postcode to search.</p>"
  const NoAddressesMarkup: string :=
    "<p class=\"localgov-forms-alert localgov-forms-alert-failure js-address-error\">No addresses found</p>"

  /** One address the lookup service returns: its option key and its caption. */
  datatype Address = Address(name: string, display: string)

  /** The lookup service: search string, geocoder plugins and local custodian code to addresses. */
  type Search = (string, Value, Value) -> seq<Address>

  /** The parts of the address element that `addressSelectLookup` reads. */
  datatype AddressElement = AddressElement(
    id: string,
    geocoderPlugins: Value,
    localCustodianCode: Value,
    /** `#empty_option` of the select list. */
    emptyOption: Value,
    /** `#empty_value` of the select list, as the array key it becomes. */
    emptyValue: Key,
    /** `#address_type` of the select list. */
    addressType: Value,
    /** `#options` of the select list. */
    options: Entries)

  /**
   * What `addressSelectLookup` returns: an error message element, or the
   * select list, enabled, with its options, the address list handed to the
   * browser and the container id it is filed under.
   */
  datatype Rendered =
    | Markup(markup: string)
    | SelectList(options: Entries, addressList: seq<Address>, addressId: string)

  /** The static fields shared by all calls. */
  datatype Cache = Cache(searchString: Value, addressType: Value, results: seq<Address>)

  /** The options before the addresses: the empty option, when one is configured. */
  function WithEmptyOption(el: AddressElement): Entries
  {
    if Truthy(el.emptyOption) then Put(el.options, el.emptyValue, el.emptyOption) else el.options
  }

  /** `$options[$address['name']] = $address['display']` for each address in turn. */
  function AddOptions(options: Entries, list: seq<Address>): Entries
  {
    if list == [] then options
    else
      var last := list[|list| - 1];
      Put(AddOptions(options, list[..|list| - 1]), KeyOf(last.name), Str(last.display))
  }

  /** Whether the search goes to the service rather than reusing the cached results. */
  predicate Fresh(c: Cache, addressSearch: string, el: AddressElement)
  {
    Str(addressSearch) != c.searchString || el.addressType != c.addressType
  }

  /** `addressSelectLookup`: the new static fields and the returned element. */
  function SelectLookup(c: Cache, addressSearch: string, el: AddressElement, search: Search): (Cache, Rendered)
  {
    if !Truthy(Str(addressSearch)) then (c, Markup(EnterPostcodeMarkup))
    else
      var results := if Fresh(c, addressSearch, el) then search(addressSearch, el.geocoderPlugins, el.localCustodianCode) else c.results;
      if results == [] then (c.(results := results), Markup(NoAddressesMarkup))
      else (Cache(Str(addressSearch), el.addressType, results), SelectList(AddOptions(WithEmptyOption(el), results), results, el.id))
  }

  /** `$form_state` values of the select list: the submitted selection, 0 when there is none. */
  function Selected(values: Value): Value
  {
    Coalesce(Index(values, StrKey("address_select")), StrKey("address_select_list"), Int(0))
  }

  /** `in_array($selected, array_keys($options), TRUE)`. */
  predicate IsOptionKey(selected: Value, options: Entries)
  {
    exists i :: 0 <= i < |options| && KeyValue(options[i].0) == selected
  }

  /** The search string: the submitted one, else the field's `#value`, else its `#default_value`. */
  function SearchString(submitted: Value, shown: Value, default: Value): Value
  {
    if Truthy(submitted) then submitted else if Truthy(shown) then shown else if Truthy(default) then default else Null
  }

  /**
   * What processing the element on submission decides: the select list the
   * lookup returned (None when there is no search string and the empty
   * select list stays), whether the submitted selection is cleared, and
   * whether the select container is hidden.
   */
  datatype Processed = Processed(lookup: Option<Rendered>, selectionCleared: bool, hidden: bool)

  /** Processing with the search string and the submitted selection already read. */
  function Rebuild(c: Cache, search: Search, el: AddressElement, addressSearch: Value, selected: Value): (Cache, Processed)
  {
    if !Truthy(addressSearch) then (c, Processed(None, false, true))
    else
      var (c', r) := SelectLookup(c, ToStr(addressSearch), el, search);
      var cleared := r.SelectList? && !IsOptionKey(selected, r.options);
      (c', Processed(Some(r), cleared, r.SelectList? && r.options == []))
  }

  /** The search string the submitted values, the field's `#value` and its `#default_value` give. */
  function SubmittedSearch(values: Value, shown: Value, default: Value): Value
  {
    SearchString(Index(Index(values, StrKey("address_search")), StrKey("address_searchstring")), shown, default)
  }

  function Process(c: Cache, search: Search, el: AddressElement, values: Value, shown: Value, default: Value): (Cache, Processed)
  {
    Rebuild(c, search, el, SubmittedSearch(values, shown, default), Selected(values))
  }

  /** `valueCallback`: NULL without a search string, else what the parent callback gives. */
  function ValueCallback(input: Value, parentValue: Value): (r: Value)
    ensures !Truthy(Index(Index(input, StrKey("address_search")), StrKey("address_searchstring"))) ==> r == Null
    ensures Truthy(Index(Index(input, StrKey("address_search")), StrKey("address_searchstring"))) ==> r == parentValue
  {
    if !Truthy(Index(Index(input, StrKey("address_search")), StrKey("address_searchstring"))) then Null else parentValue
  }

  /** The static fields of the element class. */
  class Statics {
    var searchString: Value
    var addressType: Value
    var addressResults: seq<Address>
    var selectElement: Option<Rendered>

    constructor()
      ensures searchString == Null && addressType == Null && addressResults == [] && selectElement == None
    {
      searchString := Null;
      addressType := Null;
      addressResults := [];
      selectElement := None;
    }

    function State(): Cache
      reads this
    {
      Cache(searchString, addressType, addressResults)
    }

    /** The options loop of `addressSelectLookup`. */
    static method BuildOptions(el: AddressElement, list: seq<Address>) returns (options: Entries)
      ensures options == AddOptions(WithEmptyOption(el), list)
    {
      options := el.options;
      if Truthy(el.emptyOption) {
        options := Put(options, el.emptyValue, el.emptyOption);
      }
      var i := 0;
      while i < |list|
        invariant 0 <= i <= |list|
        invariant options == AddOptions(WithEmptyOption(el), list[..i])
      {
        PrefixStep(list, i);
        options := Put(options, KeyOf(list[i].name), Str(list[i].display));
        i := i + 1;
      }
      PrefixAll(list);
    }

    /** `addressSelectLookup`. */
    method AddressSelectLookup(addressSearch: string, el: AddressElement, search: Search) returns (r: Rendered)
      modifies this
      ensures (State(), r) == SelectLookup(old(State()), addressSearch, el, search)
      ensures selectElement == old(selectElement)
    {
      if addressSearch == "" || addressSearch == "0" {
        return Markup(EnterPostcodeMarkup);
      }
      if Str(addressSearch) != searchString || el.addressType != addressType {
        addressResults := search(addressSearch, el.geocoderPlugins, el.localCustodianCode);
      }
      var addressList := addressResults;
      if addressList == [] {
        return Markup(NoAddressesMarkup);
      }
      var options := BuildOptions(el, addressList);
      r := SelectList(options, addressList, el.id);
      searchString := Str(addressSearch);
      addressType := el.addressType;
    }

    /**
     * The part of `processAddressLookupElement` that runs while the form
     * processes input: find the search string, rebuild the select list and
     * clear a selection that is not one of its options.
     */
    method ProcessInput(search: Search, el: AddressElement, values: Value, shown: Value, default: Value) returns (p: Processed)
      modifies this
      ensures (State(), p) == Process(old(State()), search, el, values, shown, default)
      ensures selectElement == (if p.lookup.Some? then p.lookup else old(selectElement))
    {
      var addressSearch := Null;
      var submitted := Index(Index(values, StrKey("address_search")), StrKey("address_searchstring"));
      if Truthy(submitted) {
        addressSearch := submitted;
      } else if Truthy(shown) {
        addressSearch := shown;
      } else if Truthy(default) {
        addressSearch := default;
      }
      assert addressSearch == SubmittedSearch(values, shown, default);
      var selected := Coalesce(Index(values, StrKey("address_select")), StrKey("address_select_list"), Int(0));
      p := RebuildSelect(search, el, addressSearch, selected);
    }

    /** Rebuild the select list for the search string and clear a selection that is not an option key. */
    method RebuildSelect(search: Search, el: AddressElement, addressSearch: Value, selected: Value) returns (p: Processed)
      modifies this
      ensures (State(), p) == Rebuild(old(State()), search, el, addressSearch, selected)
      ensures selectElement == (if p.lookup.Some? then p.lookup else old(selectElement))
    {
      var lookup: Option<Rendered> := None;
      var cleared := false;
      if Truthy(addressSearch) {
        var r := AddressSelectLookup(ToStr(addressSearch), el, search);
        if r.SelectList? {
          cleared := !IsOptionKey(selected, r.options);
        }
        lookup := Some(r);
        selectElement := lookup;
      }
      var hidden := if lookup.None? then true else lookup.value.SelectList? && lookup.value.options == [];
      p := Processed(lookup, cleared, hidden);
    }
  }

  // ---------------------------------------------------------------------
  // Properties

  /** A key no address has keeps what it had before the addresses were added. */
  lemma {:induction false} AddOptionsOther(options: Entries, list: seq<Address>, k: Key)
    requires forall i :: 0 <= i < |list| ==> KeyOf(list[i].name) != k
    ensures Lookup(AddOptions(options, list), k) == Lookup(options, k)
  {
    if list != [] {
      var p, last := list[..|list| - 1], list[|list| - 1];
      assert forall i :: 0 <= i < |p| ==> p[i] == list[i];
      AddOptionsOther(options, p, k);
      PutLookup(AddOptions(options, p), KeyOf(last.name), Str(last.display), k);
    }
  }

  /** An address's key holds the caption of the last address with that key: a later duplicate wins. */
  lemma {:induction false} AddOptionsLast(options: Entries, list: seq<Address>, i: int)
    requires 0 <= i < |list|
    requires forall j :: i < j < |list| ==> KeyOf(list[j].name) != KeyOf(list[i].name)
    ensures Lookup(AddOptions(options, list), KeyOf(list[i].name)) == Some(Str(list[i].display))
  {
    var p, last := list[..|list| - 1], list[|list| - 1];
    var k := KeyOf(list[i].name);
    PutLookup(AddOptions(options, p), KeyOf(last.name), Str(last.display), k);
    if i < |list| - 1 {
      assert forall j :: i < j < |p| ==> p[j] == list[j];
      AddOptionsLast(options, p, i);
    }
  }

  /** The options already there keep their places, so a configured empty option stays first. */
  lemma {:induction false} AddOptionsKeepsKeys(options: Entries, list: seq<Address>)
    ensures |Keys(options)| <= |Keys(AddOptions(options, list))|
    ensures Keys(AddOptions(options, list))[..|options|] == Keys(options)
  {
    if list != [] {
      var p, last := list[..|list| - 1], list[|list| - 1];
      AddOptionsKeepsKeys(options, p);
      var before := AddOptions(options, p);
      if Lookup(before, KeyOf(last.name)).None? {
        assert Keys(before + [(KeyOf(last.name), Str(last.display))])[..|before|] == Keys(before);
      }
    }
  }

  /**
   * With no options to start from, a configured empty option is the first
   * option, and its caption stays unless an address has the same key.
   */
  lemma EmptyOptionFirst(el: AddressElement, list: seq<Address>)
    requires Truthy(el.emptyOption) && el.options == []
    ensures var options := AddOptions(WithEmptyOption(el), list);
      |options| >= 1 && options[0].0 == el.emptyValue
      && ((forall i :: 0 <= i < |list| ==> KeyOf(list[i].name) != el.emptyValue) ==> Lookup(options, el.emptyValue) == Some(el.emptyOption))
  {
    AddOptionsKeepsKeys(WithEmptyOption(el), list);
    assert Keys(WithEmptyOption(el)) == [el.emptyValue];
    if forall i :: 0 <= i < |list| ==> KeyOf(list[i].name) != el.emptyValue {
      AddOptionsOther(WithEmptyOption(el), list, el.emptyValue);
    }
  }

  /** No key appears that is neither an earlier option nor an address's key. */
  lemma {:induction false} AddOptionsKeys(options: Entries, list: seq<Address>, k: Key)
    requires Lookup(AddOptions(options, list), k).Some?
    ensures Lookup(options, k).Some? || exists i :: 0 <= i < |list| && KeyOf(list[i].name) == k
  {
    if list != [] {
      var p, last := list[..|list| - 1], list[|list| - 1];
      PutLookup(AddOptions(options, p), KeyOf(last.name), Str(last.display), k);
      if KeyOf(last.name) != k {
        AddOptionsKeys(options, p, k);
        if !Lookup(options, k).Some? {
          var i :| 0 <= i < |p| && KeyOf(p[i].name) == k;
          assert list[i] == p[i];
        }
      }
    }
  }

  /**
   * The outcome of a lookup: the prompt for an empty search string, the
   * not-found message when the results are empty, otherwise the select list
   * of those results, and the cached pair moves to this search.
   */
  lemma SelectLookupOutcome(c: Cache, addressSearch: string, el: AddressElement, search: Search)
    ensures var (c', r) := SelectLookup(c, addressSearch, el, search);
      (r == Markup(EnterPostcodeMarkup) <==> addressSearch == "" || addressSearch == "0")
      && (r == Markup(EnterPostcodeMarkup) ==> c' == c)
      && (r == Markup(NoAddressesMarkup) ==> c'.searchString == c.searchString && c'.addressType == c.addressType && c'.results == [])
      && (r.SelectList? ==>
            c' == Cache(Str(addressSearch), el.addressType, r.addressList) && r.addressList != []
            && r.options == AddOptions(WithEmptyOption(el), r.addressList))
      && (r.Markup? || r.SelectList?)
  {
  }

  /** The service is asked only for a new search string or address type; otherwise the cached results are used. */
  lemma SearchOnlyWhenFresh(c: Cache, addressSearch: string, el: AddressElement, search: Search, other: Search)
    requires !Fresh(c, addressSearch, el)
    ensures SelectLookup(c, addressSearch, el, search) == SelectLookup(c, addressSearch, el, other)
  {
  }

  /** Repeating a successful search returns the same list without asking the service. */
  lemma RepeatUsesCache(c: Cache, addressSearch: string, el: AddressElement, search: Search, other: Search)
    requires SelectLookup(c, addressSearch, el, search).1.SelectList?
    ensures var c1 := SelectLookup(c, addressSearch, el, search).0;
      SelectLookup(c1, addressSearch, el, other) == (c1, SelectLookup(c, addressSearch, el, search).1)
  {
  }

  /**
   * The cached pair is moved only on success, while the cached results are
   * replaced on every fresh search.  After a search with no results, the
   * earlier search string is paired with empty results, and repeating that
   * earlier search reports "No addresses found" although the service has
   * addresses for it.
   */
  lemma StaleCache(el: AddressElement)
    requires Truthy(Str("BN1 1AA")) && el.addressType == Str("residential")
    ensures var search: Search := (s, _, _) => if s == "BN1 1AA" then [Address("1", "1 Road")] else [];
      var c0 := Cache(Null, Null, []);
      var c1 := SelectLookup(c0, "BN1 1AA", el, search).0;
      var c2 := SelectLookup(c1, "XX1", el, search).0;
      SelectLookup(c0, "BN1 1AA", el, search).1.SelectList?
      && c2.searchString == Str("BN1 1AA") && c2.results == []
      && SelectLookup(c2, "BN1 1AA", el, search).1 == Markup(NoAddressesMarkup)
  {
  }

  /**
   * The evident intent: the cached pair describes the cached results, so
   * the pair and the results move together on every fresh search.
   */
  function CoherentLookup(c: Cache, addressSearch: string, el: AddressElement, search: Search): (Cache, Rendered)
  {
    if !Truthy(Str(addressSearch)) then (c, Markup(EnterPostcodeMarkup))
    else
      var c' := if Fresh(c, addressSearch, el) then Cache(Str(addressSearch), el.addressType, search(addressSearch, el.geocoderPlugins, el.localCustodianCode)) else c;
      if c'.results == [] then (c', Markup(NoAddressesMarkup))
      else (c', SelectList(AddOptions(WithEmptyOption(el), c'.results), c'.results, el.id))
  }

  /** The cached results are those the service gives for the cached pair. */
  predicate Coherent(c: Cache, el: AddressElement, search: Search)
  {
    c.searchString.Str? ==> c.results == search(c.searchString.s, el.geocoderPlugins, el.localCustodianCode)
  }

  /**
   * With the corrected cache a lookup keeps the cache coherent and answers
   * every non-empty search with what the service gives for it.
   */
  lemma CoherentLookupAgrees(c: Cache, addressSearch: string, el: AddressElement, search: Search)
    requires Coherent(c, el, search) && Truthy(Str(addressSearch))
    ensures Coherent(CoherentLookup(c, addressSearch, el, search).0, el, search)
    ensures var found := search(addressSearch, el.geocoderPlugins, el.localCustodianCode);
      CoherentLookup(c, addressSearch, el, search).1 ==
        (if found == [] then Markup(NoAddressesMarkup) else SelectList(AddOptions(WithEmptyOption(el), found), found, el.id))
  {
  }

  /** A string selection survives exactly when its option key stayed a string. */
  lemma StrictSelection(s: string, caption: Value)
    ensures IsOptionKey(Str(s), [(KeyOf(s), caption)]) <==> KeyOf(s).StrKey?
  {
    if KeyOf(s).StrKey? {
      assert KeyValue([(KeyOf(s), caption)][0].0) == Str(s);
    }
  }

  /** `22127719` becomes an integer key and is cleared; `000022062038` stays a string key and is kept. */
  lemma SelectionExamples(caption: Value)
    ensures !IsOptionKey(Str("22127719"), [(KeyOf("22127719"), caption)])
    ensures IsOptionKey(Str("000022062038"), [(KeyOf("000022062038"), caption)])
  {
    StrictSelection("22127719", caption);
    StrictSelection("000022062038", caption);
    assert IsCanonicalDecimal("22127719");
    ShortDecimalKey("22127719");
    assert !IsCanonicalDecimal("000022062038");
  }

  /**
   * On submission, the select container is hidden exactly when there is no
   * search string, and a selection is cleared only from a select list whose
   * keys do not include it.
   */
  lemma ProcessOutcome(c: Cache, search: Search, el: AddressElement, values: Value, shown: Value, default: Value)
    ensures var p := Process(c, search, el, values, shown, default).1;
      (p.hidden <==> !Truthy(SubmittedSearch(values, shown, default)))
      && (p.lookup.None? <==> !Truthy(SubmittedSearch(values, shown, default)))
      && (p.selectionCleared <==> p.lookup.Some? && p.lookup.value.SelectList? && !IsOptionKey(Selected(values), p.lookup.value.options))
  {
    RebuildOutcome(c, search, el, SubmittedSearch(values, shown, default), Selected(values));
  }

  lemma RebuildOutcome(c: Cache, search: Search, el: AddressElement, addressSearch: Value, selected: Value)
    ensures var p := Rebuild(c, search, el, addressSearch, selected).1;
      (p.hidden <==> !Truthy(addressSearch))
      && (p.lookup.None? <==> !Truthy(addressSearch))
      && (p.selectionCleared <==> p.lookup.Some? && p.lookup.value.SelectList? && !IsOptionKey(selected, p.lookup.value.options))
  {
    if Truthy(addressSearch) && SelectLookup(c, ToStr(addressSearch), el, search).1.SelectList? {
      SelectListHasOptions(c, ToStr(addressSearch), el, search);
    }
  }

  /** A select list the lookup returns has at least one option. */
  lemma SelectListHasOptions(c: Cache, addressSearch: string, el: AddressElement, search: Search)
    requires SelectLookup(c, addressSearch, el, search).1.SelectList?
    ensures SelectLookup(c, addressSearch, el, search).1.options != []
  {
    var r := SelectLookup(c, addressSearch, el, search).1;
    AddOptionsLast(WithEmptyOption(el), r.addressList, |r.addressList| - 1);
  }

  /** The search string comes from the submitted value first, then the field's value, then its default. */
  lemma SearchStringPrecedence(submitted: Value, shown: Value, default: Value)
    ensures Truthy(submitted) ==> SearchString(submitted, shown, default) == submitted
    ensures !Truthy(submitted) && Truthy(shown) ==> SearchString(submitted, shown, default) == shown
    ensures !Truthy(submitted) && !Truthy(shown) ==> SearchString(submitted, shown, default) == (if Truthy(default) then default else Null)
    ensures Truthy(SearchString(submitted, shown, default)) <==> Truthy(submitted) || Truthy(shown) || Truthy(default)
  {
  }
}
