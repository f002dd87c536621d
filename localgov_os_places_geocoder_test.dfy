/**
 * The scenario of the geocoder's unit test: the query 'BN1 1JE' answered with
 * one DPA record whose UPRN is '22062038' and whose easting is 531044.
 */
module LocalgovOsPlacesGeocoderTest {
  import opened Php
  import opened LocalgovOsPlacesGeocoder
  import LocalgovAddress

  const FixtureText: string := "BN1 1JE"

  /** The test's query 'BN1 1JE' has nothing to trim. */
  lemma FixtureTrimmed(text: string)
    requires text == FixtureText
    ensures Trim(text) == text
  {
    assert text[0] == 'B' && text[|text| - 1] == 'E';
    TrimNoop(text);
  }

  /**
   * 'BN1 1JE' is a postcode shape (two area letters, no district suffix, one
   * space), so by `QueryForShape` it goes to the postcode endpoint as it is.
   */
  lemma FixtureShape(text: string)
    requires text == FixtureText
    ensures UkAt(text, 2, 0, 1)
  {
    assert text[2] == '1' && text[3] == ' ' && text[4] == '1';
  }

  /** The one result of the answer: a place holding the DPA record `dpa`. */
  function FixturePlace(dpa: Entries): Value
  {
    Arr([(DpaKey, Arr(dpa))])
  }

  /** The decoded answer: an empty header and one result. */
  function FixtureJson(dpa: Entries): Value
  {
    Arr([(StrKey("header"), Arr([])), (ResultsKey, Arr([(IntKey(0), FixturePlace(dpa))]))])
  }

  lemma FixtureResults(dpa: Entries)
    ensures Index(FixtureJson(dpa), ResultsKey) == Arr([(IntKey(0), FixturePlace(dpa))])
  {
    var e := FixtureJson(dpa).entries;
    assert e[0].0 != ResultsKey;
    assert Lookup(e, ResultsKey) == Lookup(e[1..], ResultsKey);
  }

  lemma FixtureDpa(dpa: Entries, field: string)
    ensures Dpa(FixturePlace(dpa), field) == Index(Arr(dpa), StrKey(field))
  {
    assert Index(FixturePlace(dpa), DpaKey) == Arr(dpa);
  }

  /**
   * The address made of a place whose record has UPRN '22062038' and a
   * one-line address lists uprn '22062038' in its array.
   */
  lemma FixtureUprn(dpa: Entries, parentOf: Entries -> Entries)
    requires Lookup(dpa, StrKey("UPRN")) == Some(Str("22062038"))
    requires Lookup(dpa, StrKey("ADDRESS")).Some? && Lookup(dpa, StrKey("ADDRESS")).value.Str?
    ensures LocalgovAddress.ToArray(AddressOf(FixturePlace(dpa), parentOf)).Some?
    ensures Lookup(LocalgovAddress.ToArray(AddressOf(FixturePlace(dpa), parentOf)).value, LocalgovAddress.UprnKey)
      == Some(Str("22062038"))
  {
    var place := FixturePlace(dpa);
    FixtureDpa(dpa, "UPRN");
    FixtureDpa(dpa, "ADDRESS");
    AddressOfFields(place, parentOf);
    LocalgovAddress.ToArrayEntries(AddressOf(place, parentOf), LocalgovAddress.UprnKey);
  }

  /** That address is made of data whose easting is the record's 531044. */
  lemma FixtureEasting(dpa: Entries, parentOf: Entries -> Entries)
    requires Lookup(dpa, StrKey("X_COORDINATE")) == Some(Int(531044))
    ensures Lookup(PlaceData(FixturePlace(dpa)), StrKey("easting")) == Some(Int(531044))
  {
    FixtureDpa(dpa, "X_COORDINATE");
    PlaceDataEasting(FixturePlace(dpa));
  }

  /** The test's answer gives that one address. */
  lemma FixtureAnswer(query: Query, dpa: Entries, parentOf: Entries -> Entries)
    ensures Geocode(query, FixtureJson(dpa), parentOf) == Found([AddressOf(FixturePlace(dpa), parentOf)])
  {
    FixtureResults(dpa);
    GeocodeOne(query, FixtureJson(dpa), IntKey(0), FixturePlace(dpa), parentOf);
  }
}
