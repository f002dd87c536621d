/**
 * The Ordnance Survey Places geocoder: it trims the query, sends a postcode
 * to the postcode endpoint and anything else to the free-text endpoint, and
 * turns every `DPA` record of the decoded answer into a LocalgovAddress.
 * The HTTP exchange and `json_decode` are not modelled: the decoded body is
 * an input, and the library Address a LocalgovAddress extends is a function
 * parameter (`parentOf`) giving the array the library lists for the data.
 */
module LocalgovOsPlacesGeocoder {
  import opened Php
  import opened Regex
  import LocalgovAddress

  const ProviderName: string := "localgov-ordnance-survey-places"
  const DefaultUserAgent: string := "LocalGov Drupal"
  const ReverseMessage: string := "The LocalgovOsPlacesGeocoder provider does not support reverse geocoding yet."

  // ---------------------------------------------------------------------
  // isPostcode: ^[A-Z]{1,2}\d[A-Z\d]? ?\d[A-Z]{2}$ with the i modifier

  const Area: Item := Item(Letter, 1, Some(2))
  const DistrictDigit: Item := Item(Digit, 1, Some(1))
  const DistrictSuffix: Item := Item(LetterOrDigit, 0, Some(1))
  const Gap: Item := Item(Space, 0, Some(1))
  const SectorDigit: Item := Item(Digit, 1, Some(1))
  const UnitLetters: Item := Item(Letter, 2, Some(2))

  const UnitTail: Pattern := [UnitLetters]
  const SectorTail: Pattern := [SectorDigit] + UnitTail
  const GapTail: Pattern := [Gap] + SectorTail
  const SuffixTail: Pattern := [DistrictSuffix] + GapTail
  const DistrictTail: Pattern := [DistrictDigit] + SuffixTail

  lemma PostcodePatternTails()
    ensures PostcodePattern == [Area] + DistrictTail
  {
  }

  /** `isPostcode`: the anchored pattern matches the whole string (a final "\n" allowed by `$`). */
  predicate IsPostcode(s: string)
  {
    Matches(PostcodePattern, s, Dollar)
  }

  /** The repetition counts of a match with `a` area letters, `x` district suffixes and `sp` spaces. */
  function Counts(a: nat, x: nat, sp: nat): seq<nat> { [a] + TailCounts(x, sp) }

  function TailCounts(x: nat, sp: nat): seq<nat> { [1] + ([x] + ([sp] + ([1] + [2]))) }

  /**
   * From `p` on, `s` holds the rest of a postcode: a digit, an optional letter
   * or digit, an optional space, a digit and two letters, then nothing or one
   * final newline.
   */
  predicate RestAt(s: string, p: nat, x: nat, sp: nat)
  {
    x <= 1 && sp <= 1 && p + x + sp + 4 <= |s| && EndOk(s, p + x + sp + 4, Dollar)
    && IsDigit(s[p])
    && (x == 1 ==> IsLetter(s[p + 1]) || IsDigit(s[p + 1]))
    && (sp == 1 ==> s[p + 1 + x] == ' ')
    && IsDigit(s[p + 1 + x + sp]) && IsLetter(s[p + 2 + x + sp]) && IsLetter(s[p + 3 + x + sp])
  }

  /**
   * `s` is a UK postcode shape: one or two letters, then the rest of a
   * postcode with `x` district suffixes and `sp` spaces.
   */
  predicate UkAt(s: string, a: nat, x: nat, sp: nat)
  {
    1 <= a <= 2 && a <= |s| && (forall j :: 0 <= j < a ==> IsLetter(s[j])) && RestAt(s, a, x, sp)
  }

  predicate IsUkPostcode(s: string)
  {
    exists a: nat, x: nat, sp: nat | a <= 2 && x <= 1 && sp <= 1 :: UkAt(s, a, x, sp)
  }

  lemma FitsRestAt(s: string, p: nat, cs: seq<nat>)
    requires p <= |s| && Fits(DistrictTail, s, p, Dollar, cs)
    ensures |cs| == 5 && RestAt(s, p, cs[1], cs[2])
  {
    FitsUncons(DistrictDigit, SuffixTail, s, p, Dollar, cs);
    var c2 := cs[1..];
    FitsUncons(DistrictSuffix, GapTail, s, p + 1, Dollar, c2);
    var x := c2[0];
    var c3 := c2[1..];
    FitsUncons(Gap, SectorTail, s, p + 1 + x, Dollar, c3);
    var sp := c3[0];
    var c4 := c3[1..];
    FitsUncons(SectorDigit, UnitTail, s, p + 1 + x + sp, Dollar, c4);
    var c5 := c4[1..];
    FitsUncons(UnitLetters, [], s, p + 2 + x + sp, Dollar, c5);
    assert In(Letter, s[p + 2 + x + sp]) && In(Letter, s[p + 3 + x + sp]);
    assert In(Digit, s[p]) && In(Digit, s[p + 1 + x + sp]);
    assert x == 1 ==> In(LetterOrDigit, s[p + 1]);
    assert sp == 1 ==> In(Space, s[p + 1 + x]);
  }

  /** Every way the pattern fits is a postcode shape. */
  lemma FitsUkAt(s: string, cs: seq<nat>)
    requires Fits(PostcodePattern, s, 0, Dollar, cs)
    ensures |cs| == 6 && UkAt(s, cs[0], cs[2], cs[3])
  {
    PostcodePatternTails();
    FitsUncons(Area, DistrictTail, s, 0, Dollar, cs);
    FitsRestAt(s, cs[0], cs[1..]);
    assert forall j :: 0 <= j < cs[0] ==> In(Letter, s[j]);
  }

  lemma RestAtFits(s: string, p: nat, x: nat, sp: nat)
    requires RestAt(s, p, x, sp)
    ensures Fits(DistrictTail, s, p, Dollar, TailCounts(x, sp))
  {
    assert Fits([], s, p + x + sp + 4, Dollar, []);
    FitsCons(UnitLetters, [], s, p + 2 + x + sp, Dollar, 2, []);
    assert [UnitLetters] + [] == UnitTail && [2] + [] == [2];
    FitsCons(SectorDigit, UnitTail, s, p + 1 + x + sp, Dollar, 1, [2]);
    FitsCons(Gap, SectorTail, s, p + 1 + x, Dollar, sp, [1] + [2]);
    FitsCons(DistrictSuffix, GapTail, s, p + 1, Dollar, x, [sp] + ([1] + [2]));
    FitsCons(DistrictDigit, SuffixTail, s, p, Dollar, 1, [x] + ([sp] + ([1] + [2])));
  }

  /** Every postcode shape is a way the pattern fits. */
  lemma UkAtFits(s: string, a: nat, x: nat, sp: nat)
    requires UkAt(s, a, x, sp)
    ensures Fits(PostcodePattern, s, 0, Dollar, Counts(a, x, sp))
  {
    PostcodePatternTails();
    RestAtFits(s, a, x, sp);
    FitsCons(Area, DistrictTail, s, 0, Dollar, a, TailCounts(x, sp));
  }

  /** `isPostcode` holds exactly for the postcode shapes. */
  lemma IsPostcodeIff(s: string)
    ensures IsPostcode(s) <==> IsUkPostcode(s)
  {
    MatchesIff(PostcodePattern, s, Dollar);
    if IsPostcode(s) {
      var cs :| Fits(PostcodePattern, s, 0, Dollar, cs);
      FitsUkAt(s, cs);
    }
    if IsUkPostcode(s) {
      var a: nat, x: nat, sp: nat :| a <= 2 && x <= 1 && sp <= 1 && UkAt(s, a, x, sp);
      UkAtFits(s, a, x, sp);
    }
  }

  // ---------------------------------------------------------------------
  // The request

  /** Where a query goes: the endpoint and the one parameter of its query string. */
  datatype Query = Query(endpoint: string, param: string, text: string)

  /** The request sent: the query and the two extra headers. */
  datatype Request = Request(query: Query, userAgent: string, key: string)

  /** The endpoint and parameter `geocodeQuery` chooses for the query text. */
  function QueryFor(genericUrl: string, postcodeUrl: string, text: string): (q: Query)
    ensures q.text == Trim(text)
    ensures q.param == "postcode" || q.param == "query"
    ensures q.param == "postcode" <==> IsPostcode(Trim(text))
    ensures q.endpoint == (if q.param == "postcode" then postcodeUrl else genericUrl)
  {
    var t := Trim(text);
    if IsPostcode(t) then Query(postcodeUrl, "postcode", t) else Query(genericUrl, "query", t)
  }

  /** White space around the query text makes no difference to the request. */
  lemma QueryForTrims(genericUrl: string, postcodeUrl: string, text: string)
    ensures QueryFor(genericUrl, postcodeUrl, Trim(text)) == QueryFor(genericUrl, postcodeUrl, text)
  {
    TrimIdempotent(text);
    var t := Trim(text);
    assert Trim(t) == t;
  }

  // ---------------------------------------------------------------------
  // The answer

  datatype Outcome =
    | Found(addresses: seq<LocalgovAddress.Address>)
    | InvalidServerResponse(query: Query)
    | UnsupportedOperation(message: string)

  const DpaKey: Key := StrKey("DPA")
  const ResultsKey: Key := StrKey("results")

  /** `$place['DPA'][$field] ?? NULL`. */
  function Dpa(place: Value, field: string): Value
  {
    Index(Index(place, DpaKey), StrKey(field))
  }

  /** Where a value of the data comes from: a fixed value, or a field of the place's `DPA` record. */
  datatype Source = Fixed(v: Value) | FromDpa(field: string)

  function Resolve(src: Source, place: Value): Value
  {
    match src
    case Fixed(v) => v
    case FromDpa(f) => Dpa(place, f)
  }

  /** The array `geocodeQuery` hands to `createFromArray`, key by key in its order (no key is a decimal string). */
  const PlaceFields: seq<(string, Source)> := [
    ("providedBy", Fixed(Str(ProviderName))),
    ("streetNumber", FromDpa("BUILDING_NUMBER")),
    ("streetName", FromDpa("THOROUGHFARE_NAME")),
    ("flat", FromDpa("SUB_BUILDING_NAME")),
    ("houseName", FromDpa("BUILDING_NAME")),
    ("org", FromDpa("ORGANISATION_NAME")),
    ("locality", FromDpa("POST_TOWN")),
    ("postalCode", FromDpa("POSTCODE")),
    ("country", Fixed(Str("United Kingdom"))),
    ("countryCode", Fixed(Str("GB"))),
    ("display", FromDpa("ADDRESS")),
    ("formattedAddress", FromDpa("ADDRESS")),
    ("latitude", Fixed(Null)),
    ("longitude", Fixed(Null)),
    ("easting", FromDpa("X_COORDINATE")),
    ("northing", FromDpa("Y_COORDINATE")),
    ("uprn", FromDpa("UPRN"))]

  /** The data a place is turned into. */
  function PlaceData(place: Value): (e: Entries)
    ensures |e| == |PlaceFields|
    ensures forall i :: 0 <= i < |e| ==> e[i] == (StrKey(PlaceFields[i].0), Resolve(PlaceFields[i].1, place))
  {
    seq(|PlaceFields|, i requires 0 <= i < |PlaceFields| => (StrKey(PlaceFields[i].0), Resolve(PlaceFields[i].1, place)))
  }

  /** The address made of a place. */
  function AddressOf(place: Value, parentOf: Entries -> Entries): LocalgovAddress.Address
  {
    var data := PlaceData(place);
    LocalgovAddress.CreateFromArray(data, parentOf(data))
  }

  /** What `foreach` visits in `$json['results']`: nothing unless it is an array. */
  function Places(json: Value): (r: seq<Value>)
    ensures Index(json, ResultsKey).Arr? ==> |r| == |Index(json, ResultsKey).entries|
    ensures !Index(json, ResultsKey).Arr? ==> r == []
  {
    var results := Index(json, ResultsKey);
    if results.Arr? then seq(|results.entries|, i requires 0 <= i < |results.entries| => results.entries[i].1) else []
  }

  /** What `geocodeQuery` answers for the decoded body `json` of the answer to `query`. */
  function Geocode(query: Query, json: Value, parentOf: Entries -> Entries): Outcome
  {
    if !json.Arr? then InvalidServerResponse(query)
    else if !Truthy(json) || !Truthy(Index(json, ResultsKey)) then Found([])
    else
      var places := Places(json);
      Found(seq(|places|, i requires 0 <= i < |places| => AddressOf(places[i], parentOf)))
  }

  lemma PlaceFieldsDistinct()
    ensures forall i, j :: 0 <= i < j < |PlaceFields| ==> PlaceFields[i].0 != PlaceFields[j].0
  {
  }

  /** Each key of the data finds its value: the value the table gives it for the place. */
  lemma PlaceDataLookup(place: Value, i: nat)
    requires i < |PlaceFields|
    ensures Lookup(PlaceData(place), StrKey(PlaceFields[i].0)) == Some(Resolve(PlaceFields[i].1, place))
  {
    var e := PlaceData(place);
    PlaceFieldsDistinct();
    assert UniqueKeys(e);
    LookupUnique(e, i);
  }

  /** Every address is provided by this geocoder. */
  lemma PlaceDataProvider(place: Value)
    ensures Lookup(PlaceData(place), StrKey("providedBy")) == Some(Str(ProviderName))
  {
    PlaceDataLookup(place, 0);
  }

  /** The country is always the United Kingdom, with country code GB. */
  lemma PlaceDataCountry(place: Value, k: string)
    requires k == "country" || k == "countryCode"
    ensures Lookup(PlaceData(place), StrKey(k)) == Some(Str(if k == "country" then "United Kingdom" else "GB"))
  {
    if k == "country" {
      PlaceDataLookup(place, 8);
    } else {
      PlaceDataLookup(place, 9);
    }
  }

  /** Latitude and longitude are always NULL: the grid reference is not converted. */
  lemma PlaceDataNoLatLong(place: Value, k: string)
    requires k == "latitude" || k == "longitude"
    ensures Lookup(PlaceData(place), StrKey(k)) == Some(Null)
  {
    if k == "latitude" {
      PlaceDataLookup(place, 12);
    } else {
      PlaceDataLookup(place, 13);
    }
  }

  /** The UPRN and the one-line address are copied from the `DPA` record. */
  lemma PlaceDataUprn(place: Value)
    ensures Lookup(PlaceData(place), LocalgovAddress.UprnKey) == Some(Dpa(place, "UPRN"))
  {
    PlaceDataLookup(place, 16);
  }

  /** The easting of the grid reference is copied from the `DPA` record. */
  lemma PlaceDataEasting(place: Value)
    ensures Lookup(PlaceData(place), StrKey("easting")) == Some(Dpa(place, "X_COORDINATE"))
  {
    PlaceDataLookup(place, 14);
  }

  lemma PlaceDataDisplay(place: Value)
    ensures Lookup(PlaceData(place), LocalgovAddress.DisplayKey) == Some(Dpa(place, "ADDRESS"))
  {
    PlaceDataLookup(place, 10);
  }

  /**
   * `$place['DPA'][$field] ?? NULL` is the field of the place's `DPA` record
   * when the place is an array whose `DPA` entry is an array holding the
   * field, and NULL otherwise.
   */
  lemma DpaCopied(place: Value, field: string)
    ensures place.Arr? && Lookup(place.entries, DpaKey).Some? && Lookup(place.entries, DpaKey).value.Arr?
        && Lookup(Lookup(place.entries, DpaKey).value.entries, StrKey(field)).Some?
      ==> Dpa(place, field) == Lookup(Lookup(place.entries, DpaKey).value.entries, StrKey(field)).value
    ensures !(place.Arr? && Lookup(place.entries, DpaKey).Some? && Lookup(place.entries, DpaKey).value.Arr?
        && Lookup(Lookup(place.entries, DpaKey).value.entries, StrKey(field)).Some?)
      ==> Dpa(place, field) == Null
  {
  }

  /**
   * The address made of a place carries the place's UPRN and its one-line
   * address, '' where the record has none, over the library's array for the data.
   */
  lemma AddressOfFields(place: Value, parentOf: Entries -> Entries)
    ensures AddressOf(place, parentOf).uprn == (if Dpa(place, "UPRN") != Null then Dpa(place, "UPRN") else Str(""))
    ensures AddressOf(place, parentOf).displayName == (if Dpa(place, "ADDRESS") != Null then Dpa(place, "ADDRESS") else Str(""))
    ensures AddressOf(place, parentOf).base == parentOf(PlaceData(place))
  {
    PlaceDataUprn(place);
    PlaceDataDisplay(place);
  }

  /** An answer that does not decode to an array is an invalid server response naming the request. */
  lemma GeocodeInvalid(query: Query, json: Value, parentOf: Entries -> Entries)
    ensures Geocode(query, json, parentOf).InvalidServerResponse? <==> !json.Arr?
    ensures Geocode(query, json, parentOf).InvalidServerResponse? ==> Geocode(query, json, parentOf).query == query
    ensures !Geocode(query, json, parentOf).UnsupportedOperation?
  {
  }

  /** An empty answer, or one without results, gives no address. */
  lemma GeocodeEmpty(query: Query, json: Value, parentOf: Entries -> Entries)
    requires json.Arr?
    requires json.entries == [] || Lookup(json.entries, ResultsKey).None? || !Truthy(Index(json, ResultsKey))
    ensures Geocode(query, json, parentOf) == Found([])
  {
  }

  /** Otherwise there is one address per result, in the order of the results. */
  lemma GeocodeOnePerPlace(query: Query, json: Value, parentOf: Entries -> Entries)
    requires json.Arr? && Index(json, ResultsKey).Arr? && Index(json, ResultsKey).entries != []
    ensures Geocode(query, json, parentOf).Found?
    ensures |Geocode(query, json, parentOf).addresses| == |Index(json, ResultsKey).entries|
    ensures forall i :: 0 <= i < |Index(json, ResultsKey).entries| ==>
      Geocode(query, json, parentOf).addresses[i] == AddressOf(Index(json, ResultsKey).entries[i].1, parentOf)
  {
    var results := Index(json, ResultsKey);
    assert Lookup(json.entries, ResultsKey) == Some(results);
    assert json.entries != [];
  }

  /** Text that is a postcode, with nothing to trim, goes to the postcode endpoint as it is. */
  lemma QueryForPostcode(genericUrl: string, postcodeUrl: string, text: string)
    requires Trim(text) == text && IsPostcode(text)
    ensures QueryFor(genericUrl, postcodeUrl, text) == Query(postcodeUrl, "postcode", text)
  {
  }

  /** Every postcode shape is a postcode. */
  lemma UkAtIsPostcode(s: string, a: nat, x: nat, sp: nat)
    requires UkAt(s, a, x, sp)
    ensures IsPostcode(s)
  {
    UkAtFits(s, a, x, sp);
    MatchesIff(PostcodePattern, s, Dollar);
  }

  /** Text in a postcode shape, with nothing to trim, goes to the postcode endpoint as it is. */
  lemma QueryForShape(genericUrl: string, postcodeUrl: string, text: string, a: nat, x: nat, sp: nat)
    requires Trim(text) == text && UkAt(text, a, x, sp)
    ensures QueryFor(genericUrl, postcodeUrl, text) == Query(postcodeUrl, "postcode", text)
  {
    UkAtIsPostcode(text, a, x, sp);
    QueryForPostcode(genericUrl, postcodeUrl, text);
  }

  /** An answer with exactly one result gives exactly the address made of it. */
  lemma GeocodeOne(query: Query, json: Value, k: Key, place: Value, parentOf: Entries -> Entries)
    requires json.Arr? && Index(json, ResultsKey) == Arr([(k, place)])
    ensures Geocode(query, json, parentOf) == Found([AddressOf(place, parentOf)])
  {
    GeocodeOnePerPlace(query, json, parentOf);
  }

  class LocalgovOsPlacesGeocoder {
    const genericAddressQueryUrl: string
    const postcodeQueryUrl: string
    const apiKey: string
    const userAgent: string

    constructor (genericUrl: string, postcodeUrl: string, key: string, agent: string)
      ensures genericAddressQueryUrl == genericUrl && postcodeQueryUrl == postcodeUrl
      ensures apiKey == key && userAgent == agent
    {
      genericAddressQueryUrl := genericUrl;
      postcodeQueryUrl := postcodeUrl;
      apiKey := key;
      userAgent := agent;
    }

    function GetName(): (r: string)
      ensures r == ProviderName
    {
      ProviderName
    }

    /**
     * `geocodeQuery`: the request it sends for `text`, and its outcome once
     * the body of the answer has been decoded to `json`.
     */
    method GeocodeQuery(text: string, json: Value, parentOf: Entries -> Entries) returns (sent: Request, r: Outcome)
      ensures sent == Request(QueryFor(genericAddressQueryUrl, postcodeQueryUrl, text), userAgent, apiKey)
      ensures r == Geocode(sent.query, json, parentOf)
    {
      var endpoint := genericAddressQueryUrl;
      var queryText := Trim(text);
      var param := "query";
      if IsPostcode(queryText) {
        endpoint := postcodeQueryUrl;
        param := "postcode";
      }
      sent := Request(Query(endpoint, param, queryText), userAgent, apiKey);

      if !json.Arr? {
        return sent, InvalidServerResponse(sent.query);
      }
      if !Truthy(json) || !Truthy(Index(json, ResultsKey)) {
        return sent, Found([]);
      }

      var results := AddressesOf(Places(json), parentOf);
      r := Found(results);
    }

    /** The `foreach` of `geocodeQuery`: one address per place, in order. */
    static method AddressesOf(places: seq<Value>, parentOf: Entries -> Entries) returns (results: seq<LocalgovAddress.Address>)
      ensures results == seq(|places|, j requires 0 <= j < |places| => AddressOf(places[j], parentOf))
    {
      results := [];
      var i := 0;
      while i < |places|
        invariant i <= |places|
        invariant |results| == i
        invariant forall j :: 0 <= j < i ==> results[j] == AddressOf(places[j], parentOf)
      {
        results := results + [AddressOf(places[i], parentOf)];
        i := i + 1;
      }
    }

    /** `reverseQuery` always fails. */
    method ReverseQuery() returns (r: Outcome)
      ensures r == UnsupportedOperation(ReverseMessage)
    {
      r := UnsupportedOperation(ReverseMessage);
    }
  }
}
