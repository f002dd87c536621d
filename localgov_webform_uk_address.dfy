/**
 * The LocalGov UK address composite element: the address lookup, then an
 * `address_entry` container (a tree of its own) holding the four address
 * lines, then the hidden `lat`, `lng`, `uprn` and `ward` fields.  Its
 * validator follows the UK address lookup's, with these differences: it
 * never touches the limit on validation errors, the hidden path drops the
 * names that start with `key]`, there is no exemption for the search
 * button, a missing address is an error on the element itself, and of the
 * parts' errors only the select list's may stay.
 */
module LocalgovWebformUKAddressElement {
  import opened Php
  import opened FormState
  import opened UKAddressLookupElement

  const EntryKey: Key := StrKey("address_entry")

  /** Which address lines are required. */
  datatype LineFlags = LineFlags(address1: bool, address2: bool, townCity: bool, postcode: bool)

  /**
   * The rule of `getCompositeElements`: a required `address_entry` makes the
   * first line, the town and the postcode required; the second line keeps
   * its own setting.
   */
  function RequiredLines(lines: LineFlags, entryRequired: Value): (r: LineFlags)
    ensures r.address2 == lines.address2
    ensures Truthy(entryRequired) ==> r.address1 && r.townCity && r.postcode
    ensures !Truthy(entryRequired) ==> r == lines
  {
    if Truthy(entryRequired) then lines.(address1 := true, townCity := true, postcode := true) else lines
  }

  /** The properties of the element the validator reads. */
  datatype AddressElement = AddressElement(
    /** `Element::isVisibleElement`. */
    visible: bool,
    /** `#access`, Null when unset. */
    access: Value,
    /** `#required` of `address_entry`. */
    entryRequired: Value,
    /** Whether the select list is the error markup an empty lookup left in its place. */
    selectIsMarkup: bool)

  /** The required-error messages of the select list and of the element. */
  datatype Messages = Messages(selectRequired: string, elementRequired: string)

  /** The names the child-error loop keeps: any not under `key]`, and the select list (`!=` on two non-numeric strings). */
  function KeepSelect(key: string): string -> bool
  {
    n => !(StartsWith(n, key + "]") && n != SelectName(key))
  }

  /** The errors left once the child errors are unset, and the select list's too when `dropSelect`. */
  function Cleaned(e: Errors, key: string, dropSelect: bool): Errors
  {
    var kept := Kept(e, KeepSelect(key));
    if dropSelect then Kept(kept, Other(SelectName(key))) else kept
  }

  /** The required error the validator sets, under the limit in force. */
  function RequiredError(e: Errors, limit: Limit, key: string, el: AddressElement, search: Value, selected: Value,
                         msgs: Messages): Errors
  {
    if Truthy(search) && el.selectIsMarkup then Added(e, limit, key, SearchLocalMessage)
    else if Truthy(search) && !Truthy(selected) then Added(e, limit, SelectName(key), msgs.selectRequired)
    else if !Truthy(search) && !Truthy(selected) then Added(e, limit, key, msgs.elementRequired)
    else e
  }

  /** The errors after the required error, the clean-up and setting the rest again. */
  function Required(e: Errors, limit: Limit, key: string, el: AddressElement, value: Entries, msgs: Messages): Errors
  {
    var search, selected := SearchValue(value), SelectedValue(value);
    var withRequired := RequiredError(e, limit, key, el, search, selected, msgs);
    AddAll([], limit, Cleaned(withRequired, key, !Truthy(search) && !Truthy(selected)))
  }

  /** The required checks run only with access and a required `address_entry`. */
  function Lines(e: Errors, limit: Limit, key: string, el: AddressElement, value: Entries, msgs: Messages): Errors
  {
    if HasAccess(el.access) && Truthy(el.entryRequired) then Required(e, limit, key, el, value, msgs) else e
  }

  /** The validator past the visibility checks. */
  function Shown(e: Errors, limit: Limit, key: string, el: AddressElement, value: Entries, msgs: Messages): (Errors, Outcome)
  {
    if !Truthy(SelectedValue(value)) && HasAddressValues(value) then (e, ManualEntry)
    else (Lines(e, limit, key, el, value, msgs), Checked(false, FilterTruthy(value) == []))
  }

  /** `LocalgovWebformUKAddress::validateWebformComposite`: the errors and the outcome. */
  function Validate(e: Errors, limit: Limit, key: string, el: AddressElement, visibleThroughParent: bool,
                    value: Entries, msgs: Messages): (Errors, Outcome)
  {
    if !el.visible then (e, NotVisible)
    else if !visibleThroughParent then (Refiled(e, limit, NotUnder(key)), HiddenByParent)
    else Shown(e, limit, key, el, value, msgs)
  }

  /** The validator, step by step on the form state. */
  method ValidateWebformComposite(fs: FormStateErrors, key: string, el: AddressElement, visibleThroughParent: bool,
                                  value: Entries, msgs: Messages)
    returns (outcome: Outcome)
    requires fs.Valid()
    modifies fs
    ensures fs.Valid() && fs.limit == old(fs.limit)
    ensures fs.errors == Validate(old(fs.errors), fs.limit, key, el, visibleThroughParent, value, msgs).0
    ensures outcome == Validate(old(fs.errors), fs.limit, key, el, visibleThroughParent, value, msgs).1
  {
    if !el.visible {
      return NotVisible;
    }

    if !visibleThroughParent {
      fs.Refile(NotUnder(key));
      return HiddenByParent;
    }

    var selected := SelectedValue(value);
    var hasAddressValues := FindAddressValues(value);
    if !Truthy(selected) && hasAddressValues {
      return ManualEntry;
    }

    CheckLines(fs, key, el, value, msgs);
    outcome := Checked(false, FilterTruthy(value) == []);
  }

  /** `if ($has_access)` and `if (!empty(...['address_entry']['#required']))`. */
  method CheckLines(fs: FormStateErrors, key: string, el: AddressElement, value: Entries, msgs: Messages)
    requires fs.Valid()
    modifies fs
    ensures fs.Valid() && fs.limit == old(fs.limit)
    ensures fs.errors == Lines(old(fs.errors), fs.limit, key, el, value, msgs)
  {
    if HasAccess(el.access) {
      if Truthy(el.entryRequired) {
        var search := SearchValue(value);
        var selected := SelectedValue(value);
        CheckRequired(fs, key, el, search, selected, msgs);
        CleanChildErrors(fs, key, !Truthy(search) && !Truthy(selected));
      }
    }
  }

  /** The three-way choice of the required error. */
  method CheckRequired(fs: FormStateErrors, key: string, el: AddressElement, search: Value, selected: Value,
                       msgs: Messages)
    requires fs.Valid()
    modifies fs
    ensures fs.Valid() && fs.limit == old(fs.limit)
    ensures fs.errors == RequiredError(old(fs.errors), fs.limit, key, el, search, selected, msgs)
  {
    if Truthy(search) && el.selectIsMarkup {
      fs.SetErrorByName(key, SearchLocalMessage);
    } else if Truthy(search) && !Truthy(selected) {
      fs.SetErrorByName(SelectName(key), msgs.selectRequired);
    } else if !Truthy(search) && !Truthy(selected) {
      fs.SetErrorByName(key, msgs.elementRequired);
    }
  }

  /** Unset the child errors, and the select list's when `dropSelect`, then set the rest again. */
  method CleanChildErrors(fs: FormStateErrors, key: string, dropSelect: bool)
    requires fs.Valid()
    modifies fs
    ensures fs.Valid() && fs.limit == old(fs.limit)
    ensures fs.errors == AddAll([], fs.limit, Cleaned(old(fs.errors), key, dropSelect))
  {
    var formErrors := fs.GetErrors();
    formErrors := UnsetWhere(formErrors, KeepSelect(key));
    if dropSelect {
      formErrors := Kept(formErrors, Other(SelectName(key)));
    }
    fs.ClearErrors();
    fs.SetErrorsByName(formErrors);
  }

  // ---------------------------------------------------------------------
  // Properties

  /**
   * On the hidden path exactly the errors under the element's parts (names
   * starting with `key]`) are dropped, with those the limit in force no
   * longer lets through.
   */
  lemma HiddenClearsParts(e: Errors, limit: Limit, key: string, el: AddressElement, value: Entries,
                          msgs: Messages, x: (string, string))
    requires el.visible
    ensures var (r, o) := Validate(e, limit, key, el, false, value, msgs);
      o == HiddenByParent && (x in r <==> x in e && !StartsWith(x.0, key + "]") && Recorded(limit, x.0))
  {
    RefiledMembers(e, limit, NotUnder(key), x);
  }

  /** Hiding `address` keeps the errors of `home_address`. */
  lemma HiddenKeepsOtherElement(value: Entries, msgs: Messages)
    ensures var e := [("home_address][postcode", "Postcode field is required.")];
      Validate(e, None, "address", AddressElement(true, Null, Null, false), false, value, msgs).0 == e
  {
    var e := [("home_address][postcode", "Postcode field is required.")];
    RefiledUnlimited(e, NotUnder("address"));
    IntendedKeepsOtherElement();
  }

  /** Which errors the clean-up leaves. */
  lemma CleanedMembers(e: Errors, key: string, dropSelect: bool, x: (string, string))
    ensures x in Cleaned(e, key, dropSelect) <==>
      x in e && KeepSelect(key)(x.0) && !(dropSelect && x.0 == SelectName(key))
    ensures UniqueNames(e) ==> UniqueNames(Cleaned(e, key, dropSelect))
  {
    KeptMembers(e, KeepSelect(key), x);
    if UniqueNames(e) {
      KeptUnique(e, KeepSelect(key));
    }
    if dropSelect {
      KeptMembers(Kept(e, KeepSelect(key)), Other(SelectName(key)), x);
      if UniqueNames(e) {
        KeptUnique(Kept(e, KeepSelect(key)), Other(SelectName(key)));
      }
    }
  }

  /** The paths on which the required checks run. */
  predicate RequiredPath(el: AddressElement, visibleThroughParent: bool, value: Entries)
  {
    el.visible && visibleThroughParent && (Truthy(SelectedValue(value)) || !HasAddressValues(value))
    && HasAccess(el.access) && Truthy(el.entryRequired)
  }

  lemma RequiredPathResult(e: Errors, limit: Limit, key: string, el: AddressElement, value: Entries, msgs: Messages)
    requires RequiredPath(el, true, value)
    ensures Validate(e, limit, key, el, true, value, msgs)
      == (Required(e, limit, key, el, value, msgs), Checked(false, FilterTruthy(value) == []))
  {
  }

  /** The required checks only add to the errors. */
  lemma RequiredErrorKeeps(e: Errors, limit: Limit, key: string, el: AddressElement, search: Value, selected: Value,
                           msgs: Messages, x: (string, string))
    requires x in e
    ensures x in RequiredError(e, limit, key, el, search, selected, msgs)
  {
    if Truthy(search) && el.selectIsMarkup {
      AddedKeeps(e, limit, key, SearchLocalMessage, x);
    } else if Truthy(search) && !Truthy(selected) {
      AddedKeeps(e, limit, SelectName(key), msgs.selectRequired, x);
    } else if !Truthy(search) && !Truthy(selected) {
      AddedKeeps(e, limit, key, msgs.elementRequired, x);
    }
  }

  /** The errors of a cleaned list, set again under the limit: those it lets through. */
  lemma SetAgain(e: Errors, limit: Limit, key: string, dropSelect: bool, x: (string, string))
    requires UniqueNames(e)
    ensures x in AddAll([], limit, Cleaned(e, key, dropSelect)) <==>
      x in e && KeepSelect(key)(x.0) && !(dropSelect && x.0 == SelectName(key)) && Recorded(limit, x.0)
  {
    CleanedMembers(e, key, dropSelect, x);
    AddAllToEmptyMembers(limit, Cleaned(e, key, dropSelect), x);
  }

  /**
   * On the required path the errors of other elements and the element's
   * own stay when the limit lets them through; of the parts' errors only
   * the select list's can stay, so the search box's is dropped.
   */
  lemma RequiredKeeps(e: Errors, limit: Limit, key: string, el: AddressElement, value: Entries, msgs: Messages,
                      x: (string, string))
    requires UniqueNames(e)
    ensures var r := Required(e, limit, key, el, value, msgs);
      (x in e && !StartsWith(x.0, key + "]") && Recorded(limit, x.0) ==> x in r)
      && (x in r ==> Recorded(limit, x.0))
      && (x in r && StartsWith(x.0, key + "]") ==> x.0 == SelectName(key))
      && (x in r ==> x.0 != SearchName(key))
  {
    var search, selected := SearchValue(value), SelectedValue(value);
    var e1 := RequiredError(e, limit, key, el, search, selected, msgs);
    SetAgain(e1, limit, key, !Truthy(search) && !Truthy(selected), x);
    PartNames(key);
    SearchNotSelect(key);
    if x in e {
      RequiredErrorKeeps(e, limit, key, el, search, selected, msgs, x);
    }
  }

  lemma RequiredPathKeeps(e: Errors, limit: Limit, key: string, el: AddressElement, value: Entries, msgs: Messages,
                          x: (string, string))
    requires RequiredPath(el, true, value) && UniqueNames(e)
    ensures var (r, o) := Validate(e, limit, key, el, true, value, msgs);
      o == Checked(false, FilterTruthy(value) == [])
      && (x in e && !StartsWith(x.0, key + "]") && Recorded(limit, x.0) ==> x in r)
      && (x in r && StartsWith(x.0, key + "]") ==> x.0 == SelectName(key))
      && (x in r ==> x.0 != SearchName(key))
  {
    RequiredPathResult(e, limit, key, el, value, msgs);
    RequiredKeeps(e, limit, key, el, value, msgs, x);
  }

  /**
   * A search with nothing selected makes the select list required,
   * whichever button sent the form: there is no exemption for the search
   * button here.
   */
  lemma SelectRequiredError(e: Errors, limit: Limit, key: string, el: AddressElement, value: Entries, msgs: Messages)
    requires RequiredPath(el, true, value) && UniqueNames(e)
    requires Truthy(SearchValue(value)) && !el.selectIsMarkup && !Truthy(SelectedValue(value))
    requires SelectName(key) !in Names(e) && Recorded(limit, SelectName(key))
    ensures (SelectName(key), msgs.selectRequired) in Validate(e, limit, key, el, true, value, msgs).0
  {
    RequiredPathResult(e, limit, key, el, value, msgs);
    var x := (SelectName(key), msgs.selectRequired);
    SetAgain(Added(e, limit, SelectName(key), msgs.selectRequired), limit, key, false, x);
  }

  /** Neither a search nor a selection: the element itself is required, and the select list keeps no error. */
  lemma ElementRequiredError(e: Errors, limit: Limit, key: string, el: AddressElement, value: Entries, msgs: Messages,
                             x: (string, string))
    requires RequiredPath(el, true, value) && UniqueNames(e)
    requires !Truthy(SearchValue(value)) && !Truthy(SelectedValue(value))
    requires key !in Names(e) && Recorded(limit, key)
    ensures var r := Validate(e, limit, key, el, true, value, msgs).0;
      (key, msgs.elementRequired) in r && (x in r ==> x.0 != SelectName(key))
  {
    RequiredPathResult(e, limit, key, el, value, msgs);
    var e1 := Added(e, limit, key, msgs.elementRequired);
    PartNames(key);
    SetAgain(e1, limit, key, true, (key, msgs.elementRequired));
    SetAgain(e1, limit, key, true, x);
  }

  /** An address typed into `address_entry`, with no search and no selection. */
  function TypedAddress(): Entries
  {
    [(LookupKey, Arr([])), (EntryKey, Arr([(StrKey("address_1"), Str("1 High Street"))]))]
  }

  lemma TypedAddressValues()
    ensures !HasAddressValues(TypedAddress()) && FilterTruthy(TypedAddress()) != []
    ensures SelectedValue(TypedAddress()) == Arr([]) && SearchValue(TypedAddress()) == Null
  {
    var value := TypedAddress();
    assert value[1..] == [(EntryKey, Arr([(StrKey("address_1"), Str("1 High Street"))]))];
    assert Lookup(value, LookupKey) == Some(Arr([]));
    assert !HasAddressValues(value);
    FilterTruthyEmpty(value);
    assert Truthy(value[1].1);
  }

  /** The element's own error is the only one, and the clean-up keeps it. */
  lemma OwnErrorAlone(key: string, msg: string)
    ensures AddAll([], None, Cleaned(Added([], None, key, msg), key, true)) == [(key, msg)]
  {
    var e1 := [(key, msg)];
    assert Added([], None, key, msg) == e1;
    assert e1[..0] == [];
    assert |SelectName(key)| > |key|;
    assert KeepSelect(key)(key) && Other(SelectName(key))(key);
    assert Kept(e1, KeepSelect(key)) == e1;
    assert Kept(e1, Other(SelectName(key))) == e1;
    assert Cleaned(e1, key, true) == e1;
    AddAllUnlimited(e1);
  }

  /**
   * The address lines sit in the `address_entry` array, which the search
   * for manual values skips: an address typed in, with no search, does not
   * count as a manual entry, and a required element reports itself missing.
   */
  lemma TypedAddressRequired(key: string, msgs: Messages)
    ensures var el := AddressElement(true, Null, Bool(true), false);
      Validate([], None, key, el, true, TypedAddress(), msgs) == ([(key, msgs.elementRequired)], Checked(false, false))
  {
    TypedAddressValues();
    RequiredPathResult([], None, key, AddressElement(true, Null, Bool(true), false), TypedAddress(), msgs);
    OwnErrorAlone(key, msgs.elementRequired);
  }

  // ---------------------------------------------------------------------
  // The search for typed lines, as the comment before the loop describes it

  /** A manual value at the top level of the composite, or among the lines of `address_entry`. */
  predicate EnteredValues(value: Entries)
  {
    HasAddressValues(value)
    || (var entry := Lookup(value, EntryKey); entry.Some? && entry.value.Arr? && HasAddressValues(entry.value.entries))
  }

  /** The validator past the visibility checks, with the lines of `address_entry` counted as manual values. */
  function IntendedShown(e: Errors, limit: Limit, key: string, el: AddressElement, value: Entries, msgs: Messages): (Errors, Outcome)
  {
    if !Truthy(SelectedValue(value)) && EnteredValues(value) then (e, ManualEntry)
    else (Lines(e, limit, key, el, value, msgs), Checked(false, FilterTruthy(value) == []))
  }

  /** The validator with the corrected search. */
  function IntendedValidate(e: Errors, limit: Limit, key: string, el: AddressElement, visibleThroughParent: bool,
                            value: Entries, msgs: Messages): (Errors, Outcome)
  {
    if !el.visible then (e, NotVisible)
    else if !visibleThroughParent then (Refiled(e, limit, NotUnder(key)), HiddenByParent)
    else IntendedShown(e, limit, key, el, value, msgs)
  }

  /**
   * Corrected: a line typed into `address_entry`, with nothing selected,
   * sends a shown element to the parent validation and adds no error.
   */
  lemma IntendedTypedLineDefers(e: Errors, limit: Limit, key: string, el: AddressElement, value: Entries, msgs: Messages,
                                lines: Entries, i: int)
    requires el.visible && !Truthy(SelectedValue(value))
    requires Lookup(value, EntryKey) == Some(Arr(lines))
    requires 0 <= i < |lines| && ManualValue(lines[i].0, lines[i].1)
    ensures IntendedValidate(e, limit, key, el, true, value, msgs) == (e, ManualEntry)
  {
    assert HasAddressValues(lines);
  }

  /** Corrected: the typed address of `TypedAddressRequired` is a manual entry, with no error. */
  lemma IntendedTypedAddressDefers(key: string, msgs: Messages)
    ensures var el := AddressElement(true, Null, Bool(true), false);
      IntendedValidate([], None, key, el, true, TypedAddress(), msgs) == ([], ManualEntry)
  {
    var value := TypedAddress();
    var lines := [(StrKey("address_1"), Str("1 High Street"))];
    TypedAddressValues();
    assert Lookup(value, EntryKey) == Some(Arr(lines)) by {
      assert value[0].0 != EntryKey;
      assert value[1..] == [(EntryKey, Arr(lines))];
    }
    assert Truthy(lines[0].1);
    IntendedTypedLineDefers([], None, key, AddressElement(true, Null, Bool(true), false), value, msgs, lines, 0);
  }

  /** The correction changes nothing when `address_entry` holds no typed line. */
  lemma IntendedAgreesWithoutLines(e: Errors, limit: Limit, key: string, el: AddressElement, visibleThroughParent: bool,
                                   value: Entries, msgs: Messages)
    requires EnteredValues(value) == HasAddressValues(value)
    ensures IntendedValidate(e, limit, key, el, visibleThroughParent, value, msgs)
      == Validate(e, limit, key, el, visibleThroughParent, value, msgs)
  {
  }
}
