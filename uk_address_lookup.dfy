/**
 * The UK address lookup composite element: an address lookup (search box,
 * search button and select list) followed by the manual address lines
 * `address_1`, `address_2`, `town_city` and `postcode` and the hidden
 * `lat`, `lng`, `uprn` and `ward` fields.  Its validator runs once the
 * sub-elements have been validated, and decides which of their errors stay.
 *
 * The element key is the element's only parent (`#parents` is `[key]`), so
 * an error on the element is filed under `key`, and one on a sub-element
 * under `key][...]`, the sub-element's parents joined with `][`.
 */
module UKAddressLookupElement {
  import opened Php
  import opened FormState

  const LookupKey: Key := StrKey("address_lookup")
  const SearchKey: Key := StrKey("address_search")
  const SearchStringKey: Key := StrKey("address_searchstring")
  const SelectKey: Key := StrKey("address_select")
  const SelectListKey: Key := StrKey("address_select_list")

  const SearchLocalMessage: string :=
    "Search for a local address, or select \"Can't find the address\" to enter an address."

  /** The properties of the element the validator reads. */
  datatype LookupElement = LookupElement(
    /** `Element::isVisibleElement`. */
    visible: bool,
    /** `#access`, Null when unset. */
    access: Value,
    /** `#required` of the four address lines. */
    address1Required: Value,
    address2Required: Value,
    townCityRequired: Value,
    postcodeRequired: Value,
    /** Whether the select list is the error markup an empty lookup left in its place. */
    selectIsMarkup: bool)

  /** The required-error messages of the select list and of the search box. */
  datatype Messages = Messages(selectRequired: string, searchRequired: string)

  /**
   * How the validator ends.  On every path but the first two it sets the
   * submitted search string to NULL; `valueNulled` says that it also set the
   * whole composite value to NULL, `inlineErrorsDisabled` that it set
   * `#disable_inline_form_errors` on the form.
   */
  datatype Outcome =
    | NotVisible
    | HiddenByParent
    /** The parent composite validation runs instead; it is Webform's own code. */
    | ManualEntry
    | Checked(inlineErrorsDisabled: bool, valueNulled: bool)

  /** `$value['address_lookup']['address_search']['address_searchstring']`. */
  function SearchValue(value: Entries): Value
  {
    Index(Index(Index(Arr(value), LookupKey), SearchKey), SearchStringKey)
  }

  /** `$value['address_lookup']['address_select']['address_select_list'] ?? []`. */
  function SelectedValue(value: Entries): Value
  {
    Coalesce(Index(Index(Arr(value), LookupKey), SelectKey), SelectListKey, Arr([]))
  }

  /** A non-empty scalar outside the lookup: something typed into the manual address. */
  predicate ManualValue(k: Key, v: Value)
  {
    k != LookupKey && !v.Arr? && Truthy(v)
  }

  predicate HasAddressValues(value: Entries)
  {
    exists i :: 0 <= i < |value| && ManualValue(value[i].0, value[i].1)
  }

  /** The `foreach` that looks for manual address values. */
  method FindAddressValues(value: Entries) returns (has: bool)
    ensures has <==> HasAddressValues(value)
  {
    has := false;
    var i := 0;
    while i < |value|
      invariant 0 <= i <= |value|
      invariant has <==> exists j :: 0 <= j < i && ManualValue(value[j].0, value[j].1)
    {
      var (k, v) := value[i];
      if k != LookupKey && !v.Arr? {
        if Truthy(v) {
          has := true;
        }
      }
      i := i + 1;
    }
  }

  /** The error name of the select list. */
  function SelectName(key: string): string
  {
    key + "][address_lookup]" + "[address_select][address_select_list"
  }

  /** The error name of the search box. */
  function SearchName(key: string): string
  {
    key + "][address_lookup]" + "[address_search][address_searchstring"
  }

  /** The `#name` of the element's search button. */
  function SearchButtonName(key: string): string
  {
    key + "[address_lookup][address_search][address_actions][address_searchbutton]"
  }

  /** `!isset($element['#access']) || $element['#access'] === TRUE`. */
  predicate HasAccess(access: Value)
  {
    access == Null || access == Bool(true)
  }

  predicate AnyLineRequired(el: LookupElement)
  {
    Truthy(el.address1Required) || Truthy(el.address2Required)
    || Truthy(el.townCityRequired) || Truthy(el.postcodeRequired)
  }

  /** The test on the hidden path: `strpos($name, $key . ']') === FALSE`, `key]` nowhere in the name. */
  function NoPartOf(key: string): string -> bool
  {
    n => !Occurs(key + "]", n)
  }

  /** The names the child-error loop keeps: any not under `key]`, and the select list and search box. */
  function KeepChild(key: string): string -> bool
  {
    n => !(StartsWith(n, key + "]") && n != SelectName(key) && n != SearchName(key))
  }

  /** The names `unset($form_errors[$name])` keeps. */
  function Other(name: string): string -> bool
  {
    n => n != name
  }

  /** The errors left once the child errors are unset, and the select list's too when `dropSelect`. */
  function Cleaned(e: Errors, key: string, dropSelect: bool): Errors
  {
    var kept := Kept(e, KeepChild(key));
    if dropSelect then Kept(kept, Other(SelectName(key))) else kept
  }

  /**
   * The required error the validator sets (with NULL limits), and whether it
   * disables inline form errors.
   */
  function RequiredError(e: Errors, key: string, el: LookupElement, search: Value, selected: Value,
                         lookupOp: bool, msgs: Messages): (Errors, bool)
  {
    if Truthy(search) && el.selectIsMarkup then (Added(e, None, key, SearchLocalMessage), true)
    else if Truthy(search) && !Truthy(selected) && !lookupOp then (Added(e, None, SelectName(key), msgs.selectRequired), false)
    else if !Truthy(search) && !Truthy(selected) then (Added(e, None, SearchName(key), msgs.searchRequired), true)
    else (e, false)
  }

  /** The errors and the inline flag after the required checks and the clean-up. */
  function Required(e: Errors, key: string, el: LookupElement, value: Entries, triggeringName: string,
                    msgs: Messages): (Errors, bool)
  {
    var search, selected := SearchValue(value), SelectedValue(value);
    var (withRequired, disabled) :=
      RequiredError(e, key, el, search, selected, triggeringName == SearchButtonName(key), msgs);
    (Cleaned(withRequired, key, !Truthy(search) && !Truthy(selected)), disabled)
  }

  /**
   * The validator past the visibility checks: the errors and the outcome,
   * with limits NULL meanwhile.
   */
  function Shown(e: Errors, key: string, el: LookupElement, value: Entries, triggeringName: string,
                 msgs: Messages): (Errors, Outcome)
  {
    if !Truthy(SelectedValue(value)) && HasAddressValues(value) then (e, ManualEntry)
    else
      var (errors, disabled) := Lines(e, key, el, value, triggeringName, msgs);
      (errors, Checked(disabled, FilterTruthy(value) == []))
  }

  /** The required checks run only with access and a required address line. */
  function Lines(e: Errors, key: string, el: LookupElement, value: Entries, triggeringName: string,
                 msgs: Messages): (Errors, bool)
  {
    if HasAccess(el.access) && AnyLineRequired(el) then Required(e, key, el, value, triggeringName, msgs)
    else (e, false)
  }

  /**
   * `UKAddressLookup::validateWebformComposite`: the errors, the limit and
   * the outcome, from the errors and the limit it starts with.
   */
  function Validate(e: Errors, limit: Limit, key: string, el: LookupElement, visibleThroughParent: bool,
                    value: Entries, triggeringName: string, msgs: Messages): (Errors, Limit, Outcome)
  {
    if !el.visible then (e, limit, NotVisible)
    else if !visibleThroughParent then (Kept(e, NoPartOf(key)), None, HiddenByParent)
    else
      var (errors, outcome) := Shown(e, key, el, value, triggeringName, msgs);
      (errors, if outcome.ManualEntry? then None else limit, outcome)
  }

  /** The validator, step by step on the form state. */
  method ValidateWebformComposite(fs: FormStateErrors, key: string, el: LookupElement, visibleThroughParent: bool,
                                  value: Entries, triggeringName: string, msgs: Messages)
    returns (outcome: Outcome)
    requires fs.Valid()
    modifies fs
    ensures fs.Valid()
    ensures (fs.errors, fs.limit, outcome)
      == Validate(old(fs.errors), old(fs.limit), key, el, visibleThroughParent, value, triggeringName, msgs)
  {
    if !el.visible {
      return NotVisible;
    }

    var origLimit := fs.limit;
    fs.SetLimitValidationErrors(None);

    if !visibleThroughParent {
      fs.Refile(NoPartOf(key));
      RefiledUnlimited(old(fs.errors), NoPartOf(key));
      return HiddenByParent;
    }

    outcome := ValidateShown(fs, key, el, value, triggeringName, msgs, origLimit);
  }

  /** The validator from reading the search string and the selection on. */
  method ValidateShown(fs: FormStateErrors, key: string, el: LookupElement, value: Entries, triggeringName: string,
                       msgs: Messages, origLimit: Limit)
    returns (outcome: Outcome)
    requires fs.Valid() && fs.limit == None
    modifies fs
    ensures fs.Valid()
    ensures fs.errors == Shown(old(fs.errors), key, el, value, triggeringName, msgs).0
    ensures outcome == Shown(old(fs.errors), key, el, value, triggeringName, msgs).1
    ensures fs.limit == if outcome.ManualEntry? then None else origLimit
  {
    var selected := SelectedValue(value);
    var hasAddressValues := FindAddressValues(value);
    if !Truthy(selected) && hasAddressValues {
      return ManualEntry;
    }

    var disabled := CheckLines(fs, key, el, value, triggeringName, msgs);
    fs.SetLimitValidationErrors(origLimit);
    outcome := Checked(disabled, FilterTruthy(value) == []);
  }

  /** `if ($has_access && $is_any_address_line_required)`. */
  method CheckLines(fs: FormStateErrors, key: string, el: LookupElement, value: Entries, triggeringName: string,
                    msgs: Messages)
    returns (disabled: bool)
    requires fs.Valid() && fs.limit == None
    modifies fs
    ensures fs.Valid() && fs.limit == None
    ensures fs.errors == Lines(old(fs.errors), key, el, value, triggeringName, msgs).0
    ensures disabled == Lines(old(fs.errors), key, el, value, triggeringName, msgs).1
  {
    disabled := false;
    if HasAccess(el.access) && AnyLineRequired(el) {
      disabled := RequiredChecks(fs, key, el, value, triggeringName, msgs);
    }
  }

  /** The required error, then the clean-up of the child errors. */
  method RequiredChecks(fs: FormStateErrors, key: string, el: LookupElement, value: Entries, triggeringName: string,
                        msgs: Messages)
    returns (disabled: bool)
    requires fs.Valid() && fs.limit == None
    modifies fs
    ensures fs.Valid() && fs.limit == None
    ensures fs.errors == Required(old(fs.errors), key, el, value, triggeringName, msgs).0
    ensures disabled == Required(old(fs.errors), key, el, value, triggeringName, msgs).1
  {
    var search := SearchValue(value);
    var selected := SelectedValue(value);
    disabled := CheckRequired(fs, key, el, search, selected, triggeringName == SearchButtonName(key), msgs);
    CleanChildErrors(fs, key, !Truthy(search) && !Truthy(selected));
  }

  /** The three-way choice of the required error. */
  method CheckRequired(fs: FormStateErrors, key: string, el: LookupElement, search: Value, selected: Value,
                       lookupOp: bool, msgs: Messages)
    returns (disabled: bool)
    requires fs.Valid() && fs.limit == None
    modifies fs
    ensures fs.Valid() && fs.limit == None
    ensures fs.errors == RequiredError(old(fs.errors), key, el, search, selected, lookupOp, msgs).0
    ensures disabled == RequiredError(old(fs.errors), key, el, search, selected, lookupOp, msgs).1
  {
    disabled := false;
    if Truthy(search) && el.selectIsMarkup {
      fs.SetErrorByName(key, SearchLocalMessage);
      disabled := true;
    } else if Truthy(search) && !Truthy(selected) && !lookupOp {
      fs.SetErrorByName(SelectName(key), msgs.selectRequired);
    } else if !Truthy(search) && !Truthy(selected) {
      fs.SetErrorByName(SearchName(key), msgs.searchRequired);
      disabled := true;
    }
  }

  /** Unset the child errors, and the select list's when `dropSelect`, then set the rest again. */
  method CleanChildErrors(fs: FormStateErrors, key: string, dropSelect: bool)
    requires fs.Valid() && fs.limit == None
    modifies fs
    ensures fs.Valid() && fs.limit == None
    ensures fs.errors == Cleaned(old(fs.errors), key, dropSelect)
  {
    var formErrors := fs.GetErrors();
    formErrors := UnsetWhere(formErrors, KeepChild(key));
    KeptUnique(fs.errors, KeepChild(key));
    if dropSelect {
      KeptUnique(formErrors, Other(SelectName(key)));
      formErrors := Kept(formErrors, Other(SelectName(key)));
    }
    fs.ClearErrors();
    fs.SetErrorsByName(formErrors);
    AddAllUnlimited(formErrors);
  }

  // ---------------------------------------------------------------------
  // Properties

  /** The paths on which the required checks run: visible, no manual entry, access and a required line. */
  predicate RequiredPath(el: LookupElement, visibleThroughParent: bool, value: Entries)
  {
    el.visible && visibleThroughParent && (Truthy(SelectedValue(value)) || !HasAddressValues(value))
    && HasAccess(el.access) && AnyLineRequired(el)
  }

  /**
   * The manual values the validator looks for are the non-empty scalars
   * outside the lookup: adding the lookup's own entry, or any array, to the
   * value does not change whether there are any.
   */
  lemma LookupNotManual(value: Entries, k: Key, v: Value)
    requires k == LookupKey || v.Arr?
    ensures HasAddressValues(value + [(k, v)]) == HasAddressValues(value)
  {
    var w := value + [(k, v)];
    if HasAddressValues(w) {
      var i :| 0 <= i < |w| && ManualValue(w[i].0, w[i].1);
      assert i < |value| && w[i] == value[i];
    }
    if HasAddressValues(value) {
      var i :| 0 <= i < |value| && ManualValue(value[i].0, value[i].1);
      assert w[i] == value[i];
    }
  }

  /** A non-empty address line typed in counts as a manual value. */
  lemma TypedLineCounts(value: Entries, i: int)
    requires 0 <= i < |value| && value[i].0 == StrKey("address_1") && value[i].1.Str? && Truthy(value[i].1)
    ensures HasAddressValues(value)
  {
    assert ManualValue(value[i].0, value[i].1);
  }

  /**
   * On the hidden path the limit is left NULL, and exactly the errors whose
   * name holds `key]` anywhere are dropped; the rest stay in order.
   */
  lemma HiddenClears(e: Errors, limit: Limit, key: string, el: LookupElement, value: Entries,
                     triggeringName: string, msgs: Messages, x: (string, string))
    requires el.visible
    ensures var (r, l, o) := Validate(e, limit, key, el, false, value, triggeringName, msgs);
      o == HiddenByParent && l == None && (x in r <==> x in e && !Occurs(key + "]", x.0))
  {
    KeptMembers(e, NoPartOf(key), x);
  }

  /** An element `address` hidden through a parent. */
  function HiddenAddress(): LookupElement
  {
    LookupElement(true, Null, Null, Null, Null, Null, false)
  }

  /**
   * The hidden path's substring test also drops the errors of another
   * element whose key ends in the hidden element's key: hiding `address`
   * drops a postcode error of `home_address`.
   */
  lemma SubstringDropsOtherElement(value: Entries, triggeringName: string, msgs: Messages)
    ensures var name := "home_address][postcode";
      !StartsWith(name, "address]")
      && Validate([(name, "Postcode field is required.")], None, "address", HiddenAddress(), false,
                  value, triggeringName, msgs).0 == []
  {
    var name := "home_address][postcode";
    assert name[0] == 'h';
    assert "address" + "]" == "address]";
    assert name[5..13] == "address]";
    assert OccursAt("address]", name, 5);
    var e := [(name, "Postcode field is required.")];
    assert e[..0] == [];
    assert !NoPartOf("address")(name);
  }

  /**
   * The clean-up the hidden path evidently intends, as the other composite
   * validators make it: drop exactly the errors filed under the element's
   * parts (the names that start with `key]`), keep every other.
   */
  lemma IntendedHiddenClears(e: Errors, key: string, x: (string, string))
    ensures x in Kept(e, NotUnder(key)) <==> x in e && !StartsWith(x.0, key + "]")
  {
    KeptMembers(e, NotUnder(key), x);
  }

  /** That clean-up keeps the other element's error. */
  lemma IntendedKeepsOtherElement()
    ensures var e := [("home_address][postcode", "Postcode field is required.")];
      Kept(e, NotUnder("address")) == e
  {
    var e := [("home_address][postcode", "Postcode field is required.")];
    assert e[..0] == [];
    assert "home_address][postcode"[..8] != "address]" by {
      assert "home_address][postcode"[0] == 'h';
    }
  }

  /** With no selection and a manual value, the errors are left to the parent validation. */
  lemma ManualEntryDefers(e: Errors, limit: Limit, key: string, el: LookupElement, value: Entries,
                          triggeringName: string, msgs: Messages)
    requires el.visible && !Truthy(SelectedValue(value)) && HasAddressValues(value)
    ensures Validate(e, limit, key, el, true, value, triggeringName, msgs) == (e, None, ManualEntry)
  {
  }

  /** Which errors the required checks and the clean-up leave. */
  lemma CleanedMembers(e: Errors, key: string, dropSelect: bool, x: (string, string))
    ensures x in Cleaned(e, key, dropSelect) <==>
      x in e && KeepChild(key)(x.0) && !(dropSelect && x.0 == SelectName(key))
  {
    KeptMembers(e, KeepChild(key), x);
    if dropSelect {
      KeptMembers(Kept(e, KeepChild(key)), Other(SelectName(key)), x);
    }
  }

  lemma AddedKeeps(e: Errors, limit: Limit, name: string, msg: string, x: (string, string))
    requires x in e
    ensures x in Added(e, limit, name, msg)
  {
  }

  /** The error the validator adds is there, unless the name had one already. */
  lemma AddedRecords(e: Errors, name: string, msg: string)
    requires name !in Names(e)
    ensures (name, msg) in Added(e, None, name, msg)
  {
  }

  lemma RequiredPathResult(e: Errors, limit: Limit, key: string, el: LookupElement, value: Entries,
                            triggeringName: string, msgs: Messages)
    requires RequiredPath(el, true, value)
    ensures var (r, disabled) := Required(e, key, el, value, triggeringName, msgs);
      Validate(e, limit, key, el, true, value, triggeringName, msgs) == (r, limit, Checked(disabled, FilterTruthy(value) == []))
  {
  }

  /** The required checks only add to the errors. */
  lemma RequiredErrorKeeps(e: Errors, key: string, el: LookupElement, search: Value, selected: Value,
                           lookupOp: bool, msgs: Messages, x: (string, string))
    requires x in e
    ensures x in RequiredError(e, key, el, search, selected, lookupOp, msgs).0
  {
    if Truthy(search) && el.selectIsMarkup {
      AddedKeeps(e, None, key, SearchLocalMessage, x);
    } else if Truthy(search) && !Truthy(selected) && !lookupOp {
      AddedKeeps(e, None, SelectName(key), msgs.selectRequired, x);
    } else if !Truthy(search) && !Truthy(selected) {
      AddedKeeps(e, None, SearchName(key), msgs.searchRequired, x);
    }
  }

  /** The select list and the search box are parts: their names start with `key]`. */
  lemma PartNames(key: string)
    ensures StartsWith(SelectName(key), key + "]") && StartsWith(SearchName(key), key + "]")
  {
    UnderKey(key, "][address_lookup]", "[address_select][address_select_list");
    UnderKey(key, "][address_lookup]", "[address_search][address_searchstring");
  }

  lemma UnderKey(key: string, part: string, tail: string)
    requires |part| > 0 && part[0] == ']'
    ensures StartsWith(key + part + tail, key + "]")
  {
    assert (key + part + tail)[..|key| + 1] == key + "]";
  }

  /** What the required checks and the clean-up keep, drop and add to the errors. */
  lemma RequiredKeeps(e: Errors, key: string, el: LookupElement, value: Entries, triggeringName: string,
                      msgs: Messages, x: (string, string))
    ensures var r := Required(e, key, el, value, triggeringName, msgs).0;
      (x in e && !StartsWith(x.0, key + "]") ==> x in r)
      && (x in r && StartsWith(x.0, key + "]") ==> x.0 == SelectName(key) || x.0 == SearchName(key))
  {
    var search, selected := SearchValue(value), SelectedValue(value);
    var lookupOp := triggeringName == SearchButtonName(key);
    var e1 := RequiredError(e, key, el, search, selected, lookupOp, msgs).0;
    CleanedMembers(e1, key, !Truthy(search) && !Truthy(selected), x);
    PartNames(key);
    if x in e {
      RequiredErrorKeeps(e, key, el, search, selected, lookupOp, msgs, x);
    }
  }

  /**
   * On the required path the errors of other elements, and the element's
   * own, all stay; of its parts' errors only the select list's and the
   * search box's can stay, and the limit is restored.
   */
  lemma RequiredPathKeeps(e: Errors, limit: Limit, key: string, el: LookupElement, value: Entries,
                          triggeringName: string, msgs: Messages, x: (string, string))
    requires RequiredPath(el, true, value)
    ensures var (r, l, o) := Validate(e, limit, key, el, true, value, triggeringName, msgs);
      l == limit && o.Checked?
      && (x in e && !StartsWith(x.0, key + "]") ==> x in r)
      && (x in r && StartsWith(x.0, key + "]") ==> x.0 == SelectName(key) || x.0 == SearchName(key))
  {
    RequiredPathResult(e, limit, key, el, value, triggeringName, msgs);
    RequiredKeeps(e, key, el, value, triggeringName, msgs, x);
  }

  /** The element's own error is not a part's, so the clean-up keeps it. */
  lemma OwnErrorCleaned(e: Errors, key: string, dropSelect: bool, msg: string)
    requires key !in Names(e)
    ensures (key, msg) in Cleaned(Added(e, None, key, msg), key, dropSelect)
  {
    AddedRecords(e, key, msg);
    PartNames(key);
    CleanedMembers(Added(e, None, key, msg), key, dropSelect, (key, msg));
  }

  /** A search that found nothing: the error asking for a local address, on the element, and no inline errors. */
  lemma MarkupSearchError(e: Errors, limit: Limit, key: string, el: LookupElement, value: Entries,
                          triggeringName: string, msgs: Messages)
    requires RequiredPath(el, true, value) && Truthy(SearchValue(value)) && el.selectIsMarkup
    requires key !in Names(e)
    ensures var (r, l, o) := Validate(e, limit, key, el, true, value, triggeringName, msgs);
      (key, SearchLocalMessage) in r && o.Checked? && o.inlineErrorsDisabled
  {
    RequiredPathResult(e, limit, key, el, value, triggeringName, msgs);
    OwnErrorCleaned(e, key, false, SearchLocalMessage);
  }

  /** A search with nothing selected makes the select list required, unless the search button sent the form. */
  lemma SelectRequiredError(e: Errors, limit: Limit, key: string, el: LookupElement, value: Entries,
                            triggeringName: string, msgs: Messages)
    requires RequiredPath(el, true, value) && Truthy(SearchValue(value)) && !el.selectIsMarkup
    requires !Truthy(SelectedValue(value)) && triggeringName != SearchButtonName(key)
    requires SelectName(key) !in Names(e)
    ensures var (r, l, o) := Validate(e, limit, key, el, true, value, triggeringName, msgs);
      (SelectName(key), msgs.selectRequired) in r && o.Checked? && !o.inlineErrorsDisabled
  {
    var x := (SelectName(key), msgs.selectRequired);
    AddedRecords(e, SelectName(key), msgs.selectRequired);
    CleanedMembers(Added(e, None, SelectName(key), msgs.selectRequired), key, false, x);
  }

  /** When the search button sent the form, no required error is set; the clean-up alone runs. */
  lemma LookupOpExempt(e: Errors, limit: Limit, key: string, el: LookupElement, value: Entries, msgs: Messages)
    requires RequiredPath(el, true, value) && Truthy(SearchValue(value)) && !el.selectIsMarkup
    ensures var (r, l, o) := Validate(e, limit, key, el, true, value, SearchButtonName(key), msgs);
      r == Cleaned(e, key, false) && o.Checked? && !o.inlineErrorsDisabled
  {
  }

  lemma SearchNotSelect(key: string)
    ensures SearchName(key) != SelectName(key)
  {
    var search := "[address_search][address_searchstring";
    var select := "[address_select][address_select_list";
    assert search[11] != select[11];
    var n := |key + "][address_lookup]"|;
    assert SearchName(key)[n + 11] == search[11] && SelectName(key)[n + 11] == select[11];
  }

  lemma SearchRequiredCleaned(e: Errors, key: string, msgs: Messages, x: (string, string))
    requires SearchName(key) !in Names(e)
    ensures var r := Cleaned(Added(e, None, SearchName(key), msgs.searchRequired), key, true);
      (SearchName(key), msgs.searchRequired) in r && (x in r ==> x.0 != SelectName(key))
  {
    var e1 := Added(e, None, SearchName(key), msgs.searchRequired);
    AddedRecords(e, SearchName(key), msgs.searchRequired);
    CleanedMembers(e1, key, true, x);
    SearchNotSelect(key);
    CleanedMembers(e1, key, true, (SearchName(key), msgs.searchRequired));
  }

  /**
   * Neither a search nor a selection: the search box is required, the
   * select list keeps no error, and inline errors are off.
   */
  lemma SearchRequiredError(e: Errors, limit: Limit, key: string, el: LookupElement, value: Entries,
                            triggeringName: string, msgs: Messages, x: (string, string))
    requires RequiredPath(el, true, value) && !Truthy(SearchValue(value)) && !Truthy(SelectedValue(value))
    requires SearchName(key) !in Names(e)
    ensures var (r, l, o) := Validate(e, limit, key, el, true, value, triggeringName, msgs);
      (SearchName(key), msgs.searchRequired) in r && (x in r ==> x.0 != SelectName(key))
      && o.Checked? && o.inlineErrorsDisabled
  {
    RequiredPathResult(e, limit, key, el, value, triggeringName, msgs);
    SearchRequiredCleaned(e, key, msgs, x);
  }

  /** Without access, or with no address line required, the errors are not touched. */
  lemma NothingRequired(e: Errors, limit: Limit, key: string, el: LookupElement, value: Entries,
                        triggeringName: string, msgs: Messages)
    requires el.visible && (Truthy(SelectedValue(value)) || !HasAddressValues(value))
    requires !HasAccess(el.access) || !AnyLineRequired(el)
    ensures var (r, l, o) := Validate(e, limit, key, el, true, value, triggeringName, msgs);
      r == e && l == limit && o.Checked? && !o.inlineErrorsDisabled
  {
  }

  /**
   * The composite is nulled only when every part of its value is empty; a
   * submission always carries the lookup's own non-empty array, so then it
   * is not.
   */
  lemma ValueNulled(e: Errors, limit: Limit, key: string, el: LookupElement, visibleThroughParent: bool,
                    value: Entries, triggeringName: string, msgs: Messages, i: int)
    requires 0 <= i < |value| && value[i].0 == LookupKey && value[i].1.Arr? && value[i].1.entries != []
    ensures var o := Validate(e, limit, key, el, visibleThroughParent, value, triggeringName, msgs).2;
      o.Checked? ==> !o.valueNulled
  {
    FilterTruthyEmpty(value);
    assert FilterTruthy(value) != [];
  }

  /** The limit is restored on the checked paths, and only on those that got so far. */
  lemma LimitRestoredWhenChecked(e: Errors, limit: Limit, key: string, el: LookupElement, visibleThroughParent: bool,
                                 value: Entries, triggeringName: string, msgs: Messages)
    ensures var (r, l, o) := Validate(e, limit, key, el, visibleThroughParent, value, triggeringName, msgs);
      (o.Checked? || o.NotVisible? ==> l == limit) && (o.HiddenByParent? || o.ManualEntry? ==> l == None)
  {
  }

  /**
   * The hidden path returns with the limit still NULL.  Under the limit `[]`
   * (a button that records no errors) an error that a later
   * `#element_validate` callback of the same element sets is then recorded,
   * where the limit would have dropped it.  The form validator computes a
   * fresh limit before the next element's callbacks, so other elements are
   * not affected.
   */
  lemma LaterErrorRecorded(e: Errors, key: string, el: LookupElement, value: Entries, triggeringName: string,
                           msgs: Messages, name: string, msg: string)
    requires el.visible && name !in Names(Kept(e, NoPartOf(key)))
    ensures var (r, l, o) := Validate(e, Some([]), key, el, false, value, triggeringName, msgs);
      Added(e, Some([]), name, msg) == e && (name, msg) in Added(r, l, name, msg)
  {
    AddedRecords(Kept(e, NoPartOf(key)), name, msg);
  }

  /**
   * The validator as its comments describe it: the limit set aside is put
   * back on every path that changed it, the hidden and the manual-entry
   * paths included.
   */
  function ValidateRestoring(e: Errors, limit: Limit, key: string, el: LookupElement, visibleThroughParent: bool,
                             value: Entries, triggeringName: string, msgs: Messages): (Errors, Limit, Outcome)
  {
    if !el.visible then (e, limit, NotVisible)
    else if !visibleThroughParent then (Kept(e, NoPartOf(key)), limit, HiddenByParent)
    else
      var (errors, outcome) := Shown(e, key, el, value, triggeringName, msgs);
      (errors, limit, outcome)
  }

  /** It keeps the limit on every input, and otherwise does what the validator does. */
  lemma IntendedLimitRestored(e: Errors, limit: Limit, key: string, el: LookupElement, visibleThroughParent: bool,
                              value: Entries, triggeringName: string, msgs: Messages)
    ensures var (r, l, o) := ValidateRestoring(e, limit, key, el, visibleThroughParent, value, triggeringName, msgs);
      var (r', _, o') := Validate(e, limit, key, el, visibleThroughParent, value, triggeringName, msgs);
      l == limit && r == r' && o == o'
  {
  }

  /** So the later error of `LaterErrorRecorded` is dropped, as the limit asks. */
  lemma IntendedLaterErrorDropped(e: Errors, key: string, el: LookupElement, visibleThroughParent: bool,
                                  value: Entries, triggeringName: string, msgs: Messages, name: string, msg: string)
    ensures var (r, l, o) := ValidateRestoring(e, Some([]), key, el, visibleThroughParent, value, triggeringName, msgs);
      Added(r, l, name, msg) == r
  {
    IntendedLimitRestored(e, Some([]), key, el, visibleThroughParent, value, triggeringName, msgs);
  }
}
