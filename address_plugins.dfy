/**
 * The webform element plugins of the UK address elements: how a submitted
 * address is shown as text, the default properties they declare, and the
 * clean-up of the submission data before it is saved.
 */

/** `WebformUKAddress`: the address as a single line. */
module WebformUKAddressPlugin {
  import opened Php

  const Address1: Key := StrKey("address_1")
  const Address2: Key := StrKey("address_2")
  const TownCity: Key := StrKey("town_city")
  const Postcode: Key := StrKey("postcode")

  /** `$value[$k]`, NULL when missing. */
  function Part(value: Entries, k: Key): Value
  {
    Index(Arr(value), k)
  }

  /** A truthy part as text, after a space when `spaced`; a falsy part is left out. */
  function Piece(v: Value, spaced: bool): string
  {
    if Truthy(v) then (if spaced then " " else "") + ToStr(v) else ""
  }

  /** The four parts in order, the later ones each after a space. */
  function AddressLine(value: Entries): string
  {
    Piece(Part(value, Address1), false) + Piece(Part(value, Address2), true)
    + Piece(Part(value, TownCity), true) + Piece(Part(value, Postcode), true)
  }

  /** `formatTextItemValue`, which `formatHtmlItemValue` returns as well. */
  function FormatText(value: Entries): (lines: seq<string>)
    ensures |lines| == 1
  {
    [AddressLine(value)]
  }

  /** A part the line can show: a string, a number, a boolean or NULL. */
  predicate Scalar(v: Value)
  {
    !v.Arr? && !v.Obj?
  }

  predicate Scalars(value: Entries)
  {
    Scalar(Part(value, Address1)) && Scalar(Part(value, Address2))
    && Scalar(Part(value, TownCity)) && Scalar(Part(value, Postcode))
  }

  lemma PieceEmpty(v: Value, spaced: bool)
    requires Scalar(v)
    ensures Piece(v, spaced) == "" <==> !Truthy(v)
  {
    if Truthy(v) {
      assert Truthy(Str(ToStr(v)));
    }
  }

  /** The line is empty exactly when every part is falsy. */
  lemma EmptyLine(value: Entries)
    requires Scalars(value)
    ensures AddressLine(value) == "" <==>
      !Truthy(Part(value, Address1)) && !Truthy(Part(value, Address2))
      && !Truthy(Part(value, TownCity)) && !Truthy(Part(value, Postcode))
  {
    PieceEmpty(Part(value, Address1), false);
    PieceEmpty(Part(value, Address2), true);
    PieceEmpty(Part(value, TownCity), true);
    PieceEmpty(Part(value, Postcode), true);
  }

  /** The line built from four part values. */
  function Joined(a1: Value, a2: Value, town: Value, postcode: Value): string
  {
    Piece(a1, false) + Piece(a2, true) + Piece(town, true) + Piece(postcode, true)
  }

  lemma LineJoined(value: Entries)
    ensures AddressLine(value) == Joined(Part(value, Address1), Part(value, Address2), Part(value, TownCity), Part(value, Postcode))
  {
  }

  lemma SpacedPiece(v: Value)
    requires Truthy(v)
    ensures |Piece(v, true)| > 0 && Piece(v, true)[0] == ' '
  {
  }

  lemma JoinedLeadingSpace(a1: Value, a2: Value, town: Value, postcode: Value)
    requires !Truthy(a1)
    requires Truthy(a2) || Truthy(town) || Truthy(postcode)
    ensures |Joined(a1, a2, town, postcode)| > 0 && Joined(a1, a2, town, postcode)[0] == ' '
  {
    var a, b, c := Piece(a2, true), Piece(town, true), Piece(postcode, true);
    assert Joined(a1, a2, town, postcode) == a + b + c;
    if Truthy(a2) {
      SpacedPiece(a2);
      assert (a + b + c)[0] == a[0];
    } else if Truthy(town) {
      SpacedPiece(town);
      assert a == "";
      assert (a + b + c)[0] == b[0];
    } else {
      SpacedPiece(postcode);
      assert a == "" && b == "";
      assert (a + b + c)[0] == c[0];
    }
  }

  /** With the first line empty, any other part makes the line start with a space. */
  lemma LeadingSpace(value: Entries)
    requires !Truthy(Part(value, Address1))
    requires Truthy(Part(value, Address2)) || Truthy(Part(value, TownCity)) || Truthy(Part(value, Postcode))
    ensures |AddressLine(value)| > 0 && AddressLine(value)[0] == ' '
  {
    LineJoined(value);
    JoinedLeadingSpace(Part(value, Address1), Part(value, Address2), Part(value, TownCity), Part(value, Postcode));
  }

  lemma JoinedStrings(a1: string, a2: string, town: string, postcode: string)
    requires Truthy(Str(a1)) && Truthy(Str(a2)) && Truthy(Str(town)) && Truthy(Str(postcode))
    ensures Joined(Str(a1), Str(a2), Str(town), Str(postcode)) == a1 + " " + a2 + " " + town + " " + postcode
  {
    assert Piece(Str(a1), false) == a1;
    assert Piece(Str(a2), true) == " " + a2;
    assert Piece(Str(town), true) == " " + town;
    assert Piece(Str(postcode), true) == " " + postcode;
  }

  /** With every part a non-empty string, the parts appear in order, one space apart. */
  lemma FullLine(value: Entries, a1: string, a2: string, town: string, postcode: string)
    requires Part(value, Address1) == Str(a1) && Part(value, Address2) == Str(a2)
    requires Part(value, TownCity) == Str(town) && Part(value, Postcode) == Str(postcode)
    requires Truthy(Str(a1)) && Truthy(Str(a2)) && Truthy(Str(town)) && Truthy(Str(postcode))
    ensures AddressLine(value) == a1 + " " + a2 + " " + town + " " + postcode
  {
    LineJoined(value);
    JoinedStrings(a1, a2, town, postcode);
  }

  /** A part other than the four does not change the line. */
  lemma OtherPartIgnored(value: Entries, k: Key, v: Value)
    requires k != Address1 && k != Address2 && k != TownCity && k != Postcode
    ensures AddressLine(Put(value, k, v)) == AddressLine(value)
  {
    PutLookup(value, k, v, Address1);
    PutLookup(value, k, v, Address2);
    PutLookup(value, k, v, TownCity);
    PutLookup(value, k, v, Postcode);
  }
}

/** `UKAddressLookup`: the address lookup element's plugin. */
module UKAddressLookupPlugin {
  import opened Php
  import opened WebformUKAddressPlugin
  import AddressPreSave

  const GeocoderPlugins: Key := StrKey("geocoder_plugins")
  const AlwaysDisplayManual: Key := StrKey("always_display_manual_address_entry_btn")
  const LocalCustodianCode: Key := StrKey("local_custodian_code")
  const TitleDisplay: Key := StrKey("title_display")
  const RequiredErrorKey: Key := StrKey("required_error")

  /** The `#type` whose submission values `preSave` strips. */
  const ElementType: string := "localgov_webform_uk_address"

  /** `defineDefaultProperties`, over the properties the parent class declares. */
  function DefaultProperties(parent: Entries): Entries
  {
    var withPlugins := Put(parent, GeocoderPlugins, Arr([]));
    var withButton := Put(withPlugins, AlwaysDisplayManual, Str("yes"));
    var withCode := Put(withButton, LocalCustodianCode, Int(0));
    var withTitle := Put(withCode, TitleDisplay, Str("default"));
    Put(withTitle, RequiredErrorKey, Str(""))
  }

  /** The five defaults are set; every other property is the parent's. */
  lemma DefaultsLookup(parent: Entries, k: Key)
    ensures Lookup(DefaultProperties(parent), k) ==
      if k == GeocoderPlugins then Some(Arr([]))
      else if k == AlwaysDisplayManual then Some(Str("yes"))
      else if k == LocalCustodianCode then Some(Int(0))
      else if k == TitleDisplay then Some(Str("default"))
      else if k == RequiredErrorKey then Some(Str(""))
      else Lookup(parent, k)
  {
    var withPlugins := Put(parent, GeocoderPlugins, Arr([]));
    var withButton := Put(withPlugins, AlwaysDisplayManual, Str("yes"));
    var withCode := Put(withButton, LocalCustodianCode, Int(0));
    var withTitle := Put(withCode, TitleDisplay, Str("default"));
    PutLookup(parent, GeocoderPlugins, Arr([]), k);
    PutLookup(withPlugins, AlwaysDisplayManual, Str("yes"), k);
    PutLookup(withButton, LocalCustodianCode, Int(0), k);
    PutLookup(withCode, TitleDisplay, Str("default"), k);
    PutLookup(withTitle, RequiredErrorKey, Str(""), k);
  }

  /** `formatTextItemValue`: the address line, or no line at all when it is empty. */
  function FormatLines(value: Entries): seq<string>
  {
    var line := AddressLine(value);
    if Truthy(Str(line)) then [line] else []
  }

  lemma ConcatNotZero(s: string, rest: string)
    requires s != "" && s != "0"
    ensures s + rest != "0"
  {
    if |s + rest| == 1 {
      assert rest == [] && s + rest == s;
    }
  }

  lemma JoinedNotZero(a1: Value, a2: Value, town: Value, postcode: Value)
    requires Scalar(a1)
    ensures Joined(a1, a2, town, postcode) != "0"
  {
    var rest := Piece(a2, true) + Piece(town, true) + Piece(postcode, true);
    assert Joined(a1, a2, town, postcode) == Piece(a1, false) + rest;
    if !Truthy(a1) {
      if Truthy(a2) || Truthy(town) || Truthy(postcode) {
        JoinedLeadingSpace(a1, a2, town, postcode);
      }
    } else {
      assert Truthy(Str(Piece(a1, false)));
      ConcatNotZero(Piece(a1, false), rest);
    }
  }

  /** A line that is not empty is never the falsy "0". */
  lemma LineNotZero(value: Entries)
    requires Scalars(value)
    ensures AddressLine(value) != "0"
  {
    LineJoined(value);
    JoinedNotZero(Part(value, Address1), Part(value, Address2), Part(value, TownCity), Part(value, Postcode));
  }

  /**
   * The lookup element shows no line exactly when every part is falsy, and
   * otherwise the same single line as the plain UK address element.
   */
  lemma FormatLinesEmpty(value: Entries)
    requires Scalars(value)
    ensures FormatLines(value) == [] <==>
      !Truthy(Part(value, Address1)) && !Truthy(Part(value, Address2))
      && !Truthy(Part(value, TownCity)) && !Truthy(Part(value, Postcode))
    ensures FormatLines(value) != [] ==> FormatLines(value) == FormatText(value)
  {
    EmptyLine(value);
    LineNotZero(value);
  }

  /** `preSave`: strips every `localgov_webform_uk_address` value of the submission. */
  method PreSave(submission: AddressPreSave.WebformSubmission, typeOf: Key -> Value) returns (failed: bool)
    modifies submission
    ensures var s := AddressPreSave.Stripped(old(submission.data), Keys(old(submission.data)), typeOf, ElementType);
      if failed then s.None? && submission.data == old(submission.data) else s == Some(submission.data)
    ensures submission.dataWrites == old(submission.dataWrites) + (if failed then 0 else 1)
  {
    failed := AddressPreSave.StripAddressData(submission, typeOf, ElementType);
  }
}

/** `LocalgovWebformUKAddress`: the plain UK address element with geocoder settings. */
module LocalgovWebformUKAddressPlugin {
  import opened Php
  import AddressPreSave

  const GeocoderPlugins: Key := StrKey("geocoder_plugins")
  const ElementType: string := "localgov_webform_uk_address"

  /** `defineDefaultProperties`, over the properties the parent class declares. */
  function DefaultProperties(parent: Entries): Entries
  {
    Put(parent, GeocoderPlugins, Arr([]))
  }

  /** No geocoder plugin is selected by default; every other property is the parent's. */
  lemma DefaultsLookup(parent: Entries, k: Key)
    ensures Lookup(DefaultProperties(parent), k) == if k == GeocoderPlugins then Some(Arr([])) else Lookup(parent, k)
    ensures Keys(parent) <= Keys(DefaultProperties(parent))
  {
    PutLookup(parent, GeocoderPlugins, Arr([]), k);
  }

  /** `preSave`: strips every `localgov_webform_uk_address` value of the submission. */
  method PreSave(submission: AddressPreSave.WebformSubmission, typeOf: Key -> Value) returns (failed: bool)
    modifies submission
    ensures var s := AddressPreSave.Stripped(old(submission.data), Keys(old(submission.data)), typeOf, ElementType);
      if failed then s.None? && submission.data == old(submission.data) else s == Some(submission.data)
    ensures submission.dataWrites == old(submission.dataWrites) + (if failed then 0 else 1)
  {
    failed := AddressPreSave.StripAddressData(submission, typeOf, ElementType);
  }
}

/** `BHCCCentralHubWebformUKAddress`: the central hub address element. */
module BHCCCentralHubPlugin {
  import opened Php
  import opened WebformUKAddressPlugin
  import AddressPreSave

  const Uprn: Key := StrKey("uprn")
  const ElementType: string := "bhcc_central_hub_webform_uk_address"

  /**
   * The UPRN expression in `formatTextItemValue` is a statement of its own
   * whose value is discarded: the line never shows the UPRN.
   */
  lemma UprnNotShown(value: Entries, uprn: Value)
    ensures FormatText(Put(value, Uprn, uprn)) == FormatText(value)
  {
    OtherPartIgnored(value, Uprn, uprn);
  }

  /** `preSave`: strips every `bhcc_central_hub_webform_uk_address` value of the submission. */
  method PreSave(submission: AddressPreSave.WebformSubmission, typeOf: Key -> Value) returns (failed: bool)
    modifies submission
    ensures var s := AddressPreSave.Stripped(old(submission.data), Keys(old(submission.data)), typeOf, ElementType);
      if failed then s.None? && submission.data == old(submission.data) else s == Some(submission.data)
    ensures submission.dataWrites == old(submission.dataWrites) + (if failed then 0 else 1)
  {
    failed := AddressPreSave.StripAddressData(submission, typeOf, ElementType);
  }
}
