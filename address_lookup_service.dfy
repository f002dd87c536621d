/**
 * The central hub address lookup service of the Brighton and Hove module:
 * the search parameters it collects before posting a lookup, the clean-up
 * that turns a messy Brighton and Hove postcode ("bn11aa") into the form the
 * hub expects ("BN1 1AA"), and the decision `addressLookup` takes on the
 * hub's answer.  The HTTP request itself is not modelled: its status code
 * and decoded body are inputs.
 */
module AddressLookupService {
  import opened Php
  import opened Regex

  // ---------------------------------------------------------------------
  // The postcode pattern
  //   ^([Bb][Nn][0-4]{1,2}) ?([0-9][ABD-HJLNP-UW-Zabd-hjlnp-uw-z]{2})$

  predicate IsB(c: char) { c == 'B' || c == 'b' }
  predicate IsN(c: char) { c == 'N' || c == 'n' }
  predicate IsDistrictDigit(c: char) { '0' <= c <= '4' }
  predicate IsSpace(c: char) { c == ' ' }

  /** `[ABD-HJLNP-UW-Zabd-hjlnp-uw-z]`: any letter but C, I, K, M, O and V, in either case. */
  predicate IsUnitLetter(c: char)
  {
    IsLetter(c) &&
    var u := UpperChar(c);
    u != 'C' && u != 'I' && u != 'K' && u != 'M' && u != 'O' && u != 'V'
  }

  const AreaB: Item := Item(Class(IsB), 1, Some(1))
  const AreaN: Item := Item(Class(IsN), 1, Some(1))
  const District: Item := Item(Class(IsDistrictDigit), 1, Some(2))
  const OptionalSpace: Item := Item(Class(IsSpace), 0, Some(1))
  const Sector: Item := Item(Digit, 1, Some(1))
  const Unit: Item := Item(Class(IsUnitLetter), 2, Some(2))

  /** The pattern, built from its tails: `[Bb]`, `[Nn]`, `[0-4]{1,2}`, ` ?`, `[0-9]`, then two unit letters. */
  const UnitTail: Pattern := [Unit]
  const SectorTail: Pattern := [Sector] + UnitTail
  const SpaceTail: Pattern := [OptionalSpace] + SectorTail
  const DistrictTail: Pattern := [District] + SpaceTail
  const AreaNTail: Pattern := [AreaN] + DistrictTail
  const BnPattern: Pattern := [AreaB] + AreaNTail

  /** The repetition counts of a match with `d` district digits and `sp` spaces. */
  function Counts(d: nat, sp: nat): seq<nat> { [1] + ([1] + ([d] + ([sp] + ([1] + [2])))) }

  /**
   * `s` is a BN postcode with `d` district digits and `sp` spaces before the
   * inward code, followed by nothing or by one final newline (`$`).
   */
  predicate BnAt(s: string, d: nat, sp: nat)
  {
    1 <= d <= 2 && sp <= 1 && 5 + d + sp <= |s| && EndOk(s, 5 + d + sp, Dollar)
    && IsB(s[0]) && IsN(s[1])
    && (forall j :: 2 <= j < 2 + d ==> IsDistrictDigit(s[j]))
    && (sp == 1 ==> IsSpace(s[2 + d]))
    && IsDigit(s[2 + d + sp]) && IsUnitLetter(s[3 + d + sp]) && IsUnitLetter(s[4 + d + sp])
  }

  predicate IsBnPostcode(s: string)
  {
    exists d: nat, sp: nat | d <= 2 && sp <= 1 :: BnAt(s, d, sp)
  }

  /** Every way the pattern fits is a BN postcode shape. */
  lemma FitsBnAt(s: string, cs: seq<nat>)
    requires Fits(BnPattern, s, 0, Dollar, cs)
    ensures |cs| == 6 && cs == Counts(cs[2], cs[3]) && BnAt(s, cs[2], cs[3])
  {
    FitsUncons(AreaB, AreaNTail, s, 0, Dollar, cs);
    var c1 := cs[1..];
    FitsUncons(AreaN, DistrictTail, s, 1, Dollar, c1);
    var c2 := c1[1..];
    FitsUncons(District, SpaceTail, s, 2, Dollar, c2);
    var d := c2[0];
    var c3 := c2[1..];
    FitsUncons(OptionalSpace, SectorTail, s, 2 + d, Dollar, c3);
    var sp := c3[0];
    var c4 := c3[1..];
    FitsUncons(Sector, UnitTail, s, 2 + d + sp, Dollar, c4);
    var c5 := c4[1..];
    FitsUncons(Unit, [], s, 3 + d + sp, Dollar, c5);
    assert In(Unit.cls, s[3 + d + sp]) && In(Unit.cls, s[4 + d + sp]);
    assert cs == [cs[0]] + ([c1[0]] + ([d] + ([sp] + ([c4[0]] + [c5[0]]))));
  }

  /** Every BN postcode shape is a way the pattern fits. */
  lemma BnAtFits(s: string, d: nat, sp: nat)
    requires BnAt(s, d, sp)
    ensures Fits(BnPattern, s, 0, Dollar, Counts(d, sp))
  {
    assert Fits([], s, 5 + d + sp, Dollar, []);
    FitsCons(Unit, [], s, 3 + d + sp, Dollar, 2, []);
    assert [Unit] + [] == UnitTail && [2] + [] == [2];
    FitsCons(Sector, UnitTail, s, 2 + d + sp, Dollar, 1, [2]);
    FitsCons(OptionalSpace, SectorTail, s, 2 + d, Dollar, sp, [1] + [2]);
    FitsCons(District, SpaceTail, s, 2, Dollar, d, [sp] + ([1] + [2]));
    FitsCons(AreaN, DistrictTail, s, 1, Dollar, 1, [d] + ([sp] + ([1] + [2])));
    FitsCons(AreaB, AreaNTail, s, 0, Dollar, 1, [1] + ([d] + ([sp] + ([1] + [2]))));
  }

  /** The counts a BN postcode shape must have, read off its length and its fourth character. */
  function CountsOf(s: string): (nat, nat)
  {
    var n := if |s| > 0 && s[|s| - 1] == '\n' then |s| - 1 else |s|;
    if n == 6 then (1, 0)
    else if n == 8 then (2, 1)
    else if |s| > 3 && s[3] == ' ' then (1, 1)
    else (2, 0)
  }

  /** A string is a BN postcode in one way at most. */
  lemma BnAtCounts(s: string, d: nat, sp: nat)
    requires BnAt(s, d, sp)
    ensures (d, sp) == CountsOf(s)
  {
    assert !IsUnitLetter('\n');
    if sp == 0 && d == 2 {
      assert IsDistrictDigit(s[3]);
    }
  }

  /**
   * `preg_match` of the pattern: the district digit count and the number of
   * spaces of the match, if the whole string matches.
   */
  function MatchBn(s: string): (r: Option<(nat, nat)>)
    ensures r.Some? ==> BnAt(s, r.value.0, r.value.1)
  {
    MatchSound(BnPattern, s, 0, Dollar);
    match Match(BnPattern, s, 0, Dollar)
    case None => None
    case Some(cs) => FitsBnAt(s, cs); Some((cs[2], cs[3]))
  }

  /** The match finds the postcode whenever the string is one. */
  lemma MatchBnComplete(s: string, d: nat, sp: nat)
    requires BnAt(s, d, sp)
    ensures MatchBn(s) == Some((d, sp))
  {
    BnAtFits(s, d, sp);
    MatchComplete(BnPattern, s, 0, Dollar, Counts(d, sp));
    var r := MatchBn(s).value;
    BnAtCounts(s, d, sp);
    BnAtCounts(s, r.0, r.1);
  }

  lemma MatchBnIff(s: string)
    ensures MatchBn(s).Some? <==> IsBnPostcode(s)
  {
    if IsBnPostcode(s) {
      var d: nat, sp: nat :| BnAt(s, d, sp);
      MatchBnComplete(s, d, sp);
    }
    if MatchBn(s).Some? {
      var r := MatchBn(s).value;
      assert BnAt(s, r.0, r.1);
    }
  }

  // ---------------------------------------------------------------------
  // cleanSearchIfPostcode

  /** `$matches`: the whole match, group 1 (the outward code) and group 2 (the inward code). */
  datatype PostcodeMatch = PostcodeMatch(whole: string, outward: string, inward: string)

  function Groups(s: string, d: nat, sp: nat): PostcodeMatch
    requires BnAt(s, d, sp)
  {
    PostcodeMatch(s[..5 + d + sp], s[..2 + d], s[2 + d + sp..5 + d + sp])
  }

  /** The upper-cased outward code, one space, the upper-cased inward code. */
  function Formatted(m: PostcodeMatch): string
  {
    Upper(m.outward + " " + m.inward)
  }

  /**
   * A BN postcode, in whatever case and with or without the space, is
   * replaced by its formatted form; anything else is left untransformed.
   */
  function CleanSearchIfPostcode(s: string): string
  {
    match MatchBn(s)
    case None => s
    case Some((d, sp)) =>
      var m := Groups(s, d, sp);
      if Truthy(Str(m.whole)) && Truthy(Str(m.outward)) && Truthy(Str(m.inward))
      then StrReplace(m.whole, Formatted(m), s)
      else s
  }

  /** A string that is not a BN postcode comes back untransformed. */
  lemma CleanLeavesOthers(s: string)
    requires !IsBnPostcode(s)
    ensures CleanSearchIfPostcode(s) == s
  {
    MatchBnIff(s);
  }

  /**
   * What a BN postcode is cleaned to: its outward code upper-cased, one
   * space, its inward code upper-cased, then whatever `$` let through.
   */
  function Reformatted(s: string, d: nat, sp: nat): (r: string)
    requires BnAt(s, d, sp)
    ensures |r| == |s| + 1 - sp
    ensures forall j :: 0 <= j < 2 + d ==> r[j] == UpperChar(s[j])
    ensures r[2 + d] == ' '
    ensures forall j :: 3 + d <= j < 6 + d ==> r[j] == UpperChar(s[j - 1 + sp])
    ensures r[6 + d..] == s[5 + d + sp..]
  {
    var m := Groups(s, d, sp);
    var f := m.outward + " " + m.inward;
    assert forall j :: 0 <= j < 2 + d ==> f[j] == s[j];
    assert forall j :: 3 + d <= j < 6 + d ==> f[j] == s[j - 1 + sp];
    Formatted(m) + s[5 + d + sp..]
  }

  /** The clean-up of a BN postcode is its reformatted form. */
  lemma CleanFormatsPostcode(s: string, d: nat, sp: nat)
    requires BnAt(s, d, sp)
    ensures CleanSearchIfPostcode(s) == Reformatted(s, d, sp)
  {
    MatchBnComplete(s, d, sp);
    var m := Groups(s, d, sp);
    var tail := s[5 + d + sp..];
    assert s == m.whole + tail;
    StrReplaceLeading(m.whole, Formatted(m), tail);
  }

  /**
   * The reformatted postcode is again a BN postcode, now with the space, in
   * upper case, and followed by at most the newline `$` let through.
   */
  lemma ReformattedIsFormatted(s: string, d: nat, sp: nat)
    requires BnAt(s, d, sp)
    ensures var r := Reformatted(s, d, sp);
      && BnAt(r, d, 1)
      && (forall j :: 0 <= j < 6 + d ==> !IsLower(r[j]))
      && (r[6 + d..] == [] || r[6 + d..] == ['\n'])
  {
    var r := Reformatted(s, d, sp);
    assert |r| == 6 + d || r[6 + d] == s[5 + d + sp] by {
      if |r| > 6 + d {
        assert r[6 + d] == r[6 + d..][0];
      }
    }
  }

  /** A postcode already in the formatted form is its own reformatted form. */
  lemma ReformattedKeepsFormatted(s: string, d: nat)
    requires BnAt(s, d, 1) && forall j :: 0 <= j < 6 + d ==> !IsLower(s[j])
    ensures Reformatted(s, d, 1) == s
  {
    var r := Reformatted(s, d, 1);
    forall j | 0 <= j < |s|
      ensures r[j] == s[j]
    {
      if j < 2 + d {
        assert r[j] == UpperChar(s[j]);
      } else if j == 2 + d {
        assert IsSpace(s[j]);
      } else if j < 6 + d {
        assert r[j] == UpperChar(s[j]);
      } else {
        assert r[j] == r[6 + d..][j - 6 - d];
      }
    }
  }

  /** A string already in the formatted form is a fixed point of the clean-up. */
  lemma CleanKeepsFormatted(s: string, d: nat)
    requires BnAt(s, d, 1) && forall j :: 0 <= j < 6 + d ==> !IsLower(s[j])
    ensures CleanSearchIfPostcode(s) == s
  {
    CleanFormatsPostcode(s, d, 1);
    ReformattedKeepsFormatted(s, d);
  }

  /** Cleaning twice is cleaning once. */
  lemma CleanIdempotent(s: string)
    ensures CleanSearchIfPostcode(CleanSearchIfPostcode(s)) == CleanSearchIfPostcode(s)
  {
    if IsBnPostcode(s) {
      var d: nat, sp: nat :| BnAt(s, d, sp);
      CleanFormatsPostcode(s, d, sp);
      ReformattedIsFormatted(s, d, sp);
      CleanKeepsFormatted(CleanSearchIfPostcode(s), d);
    } else {
      CleanLeavesOthers(s);
    }
  }

  // The pairs of the service's unit test.
  const MessyUnspaced: string := "BN11AA"
  const MessyLower: string := "bn2 2bb"
  const MessyMixed: string := "bn33DD"
  const NotPostcode: string := "Not a postcode!"

  lemma CleanUnspacedUpper()
    ensures CleanSearchIfPostcode(MessyUnspaced) == "BN1 1AA"
  {
    var s := MessyUnspaced;
    assert BnAt(s, 1, 0);
    CleanFormatsPostcode(s, 1, 0);
    var r := CleanSearchIfPostcode(s);
    assert forall j | 0 <= j < 7 :: r[j] == "BN1 1AA"[j];
  }

  lemma CleanSpacedLower()
    ensures CleanSearchIfPostcode(MessyLower) == "BN2 2BB"
  {
    var s := MessyLower;
    assert BnAt(s, 1, 1);
    CleanFormatsPostcode(s, 1, 1);
    var r := CleanSearchIfPostcode(s);
    assert forall j | 0 <= j < 7 :: r[j] == "BN2 2BB"[j];
  }

  lemma CleanUnspacedMixed()
    ensures CleanSearchIfPostcode(MessyMixed) == "BN3 3DD"
  {
    var s := MessyMixed;
    assert BnAt(s, 1, 0);
    CleanFormatsPostcode(s, 1, 0);
    var r := CleanSearchIfPostcode(s);
    assert forall j | 0 <= j < 7 :: r[j] == "BN3 3DD"[j];
  }

  lemma CleanNotPostcode()
    ensures CleanSearchIfPostcode(NotPostcode) == NotPostcode
  {
    assert !IsB(NotPostcode[0]);
    CleanLeavesOthers(NotPostcode);
  }

  // ---------------------------------------------------------------------
  // Search parameters

  const SearchStringKey: Key := StrKey("searchstring")
  const OffsetKey: Key := StrKey("offset")
  const LimitKey: Key := StrKey("limit")
  const AddressTypeKey: Key := StrKey("addresstype")

  /** `$value == 'residential' || $value == 'commercial' || $value == 'all'`, compared loosely. */
  predicate IsAddressType(v: Value)
  {
    LooseEqualsLiteral(v, "residential") || LooseEqualsLiteral(v, "commercial") || LooseEqualsLiteral(v, "all")
  }

  /** The parameters before the first assignment: NULL until `initSearch`, then an array. */
  function Current(params: Option<Entries>): Entries
  {
    if params.Some? then params.value else []
  }

  /** One pass of the `switch` in `setSearchParameters`. */
  function SetOption(params: Option<Entries>, key: Key, value: Value): Option<Entries>
  {
    if key == SearchStringKey then
      if value.Str? then Some(Put(Current(params), key, Str(CleanSearchIfPostcode(value.s)))) else params
    else if key == OffsetKey || key == LimitKey then
      if IsNumeric(value) then Some(Put(Current(params), key, value)) else params
    else if key == AddressTypeKey then
      if IsAddressType(value) then Some(Put(Current(params), key, value)) else params
    else params
  }

  /** `setSearchParameters`: the options taken in order. */
  function SetOptions(params: Option<Entries>, options: Entries): Option<Entries>
    decreases |options|
  {
    if options == [] then params else SetOptions(SetOption(params, options[0].0, options[0].1), options[1..])
  }

  predicate IsSearchKey(k: Key)
  {
    k == SearchStringKey || k == OffsetKey || k == LimitKey || k == AddressTypeKey
  }

  /** An entry the service may hold: a cleaned search string, a numeric offset or limit, an address type. */
  predicate ValidParam(k: Key, v: Value)
  {
    (k == SearchStringKey && v.Str? && CleanSearchIfPostcode(v.s) == v.s)
    || ((k == OffsetKey || k == LimitKey) && IsNumeric(v))
    || (k == AddressTypeKey && IsAddressType(v))
  }

  predicate ValidParams(e: Entries)
  {
    forall i :: 0 <= i < |e| ==> ValidParam(e[i].0, e[i].1)
  }

  class AddressLookupService {
    var searchParameters: Option<Entries>

    /** The property is NULL until the first search is initialised. */
    constructor()
      ensures searchParameters == None
    {
      searchParameters := None;
    }

    method InitSearch()
      modifies this
      ensures searchParameters == Some([])
    {
      searchParameters := Some([]);
    }

    method SetSearchParameters(options: Entries)
      modifies this
      ensures searchParameters == SetOptions(old(searchParameters), options)
    {
      var i := 0;
      while i < |options|
        invariant 0 <= i <= |options|
        invariant SetOptions(searchParameters, options[i..]) == SetOptions(old(searchParameters), options)
      {
        assert options[i..][1..] == options[i + 1..];
        var (key, value) := options[i];
        var current := if searchParameters.Some? then searchParameters.value else [];
        if key == SearchStringKey {
          if value.Str? {
            searchParameters := Some(Put(current, SearchStringKey, Str(CleanSearchIfPostcode(value.s))));
          }
        } else if key == OffsetKey || key == LimitKey {
          if IsNumeric(value) {
            searchParameters := Some(Put(current, key, value));
          }
        } else if key == AddressTypeKey {
          if IsAddressType(value) {
            searchParameters := Some(Put(current, AddressTypeKey, value));
          }
        }
        i := i + 1;
      }
    }

    function GetSearchParameters(): (r: Value)
      reads this
      ensures r == Null <==> searchParameters.None?
      ensures r.Arr? ==> r.entries == Current(searchParameters)
    {
      if searchParameters.Some? then Arr(searchParameters.value) else Null
    }
  }

  /** Options with no key the service knows leave the parameters as they were. */
  lemma {:induction false} SetOptionsIgnoresUnknown(params: Option<Entries>, options: Entries)
    requires forall i :: 0 <= i < |options| ==> !IsSearchKey(options[i].0)
    ensures SetOptions(params, options) == params
    decreases |options|
  {
    if options != [] {
      SetOptionsIgnoresUnknown(params, options[1..]);
    }
  }

  /** Setting parameters merges: a key no option names keeps its value. */
  lemma {:induction false} SetOptionsKeepsOthers(params: Option<Entries>, options: Entries, k: Key)
    requires forall i :: 0 <= i < |options| ==> options[i].0 != k
    ensures Lookup(Current(SetOptions(params, options)), k) == Lookup(Current(params), k)
    decreases |options|
  {
    if options != [] {
      var (key, value) := options[0];
      var next := SetOption(params, key, value);
      SetOptionsKeepsOthers(next, options[1..], k);
      if next != params {
        var v: Value := if key == SearchStringKey then Str(CleanSearchIfPostcode(value.s)) else value;
        assert next == Some(Put(Current(params), key, v));
        PutLookup(Current(params), key, v, k);
      }
    }
  }

  lemma {:induction false} PutValid(e: Entries, k: Key, v: Value)
    requires ValidParams(e) && ValidParam(k, v)
    ensures ValidParams(Put(e, k, v))
  {
    if e != [] && e[0].0 != k {
      PutValid(e[1..], k, v);
    }
  }

  /** The service only ever holds cleaned search strings, numeric offsets and limits, and known address types. */
  lemma {:induction false} SetOptionsValid(params: Option<Entries>, options: Entries)
    requires ValidParams(Current(params))
    ensures ValidParams(Current(SetOptions(params, options)))
    decreases |options|
  {
    if options != [] {
      var (key, value) := options[0];
      if key == SearchStringKey && value.Str? {
        CleanIdempotent(value.s);
        PutValid(Current(params), key, Str(CleanSearchIfPostcode(value.s)));
      } else if IsSearchKey(key) && key != SearchStringKey {
        if SetOption(params, key, value) != params {
          PutValid(Current(params), key, value);
        }
      }
      SetOptionsValid(SetOption(params, key, value), options[1..]);
    }
  }

  /** A valid option under a new key is appended as given. */
  lemma SetOptionAppends(acc: Entries, k: Key, v: Value)
    requires ValidParam(k, v) && Lookup(acc, k).None?
    ensures SetOption(Some(acc), k, v) == Some(acc + [(k, v)])
  {
    if k == SearchStringKey {
      assert Str(CleanSearchIfPostcode(v.s)) == v;
    }
  }

  /** Options the service would store as given: valid, under distinct keys not yet held. */
  predicate StorableOptions(acc: Entries, options: Entries)
  {
    (forall i :: 0 <= i < |options| ==> ValidParam(options[i].0, options[i].1) && Lookup(acc, options[i].0).None?)
    && (forall i, j :: 0 <= i < j < |options| ==> options[i].0 != options[j].0)
  }

  lemma StorableRest(acc: Entries, options: Entries)
    requires options != [] && StorableOptions(acc, options)
    ensures StorableOptions(acc + [options[0]], options[1..])
  {
    var rest := options[1..];
    forall i | 0 <= i < |rest|
      ensures ValidParam(rest[i].0, rest[i].1) && Lookup(acc + [options[0]], rest[i].0).None?
    {
      assert rest[i] == options[i + 1];
      PutLookup(acc, options[0].0, options[0].1, rest[i].0);
    }
    forall i, j | 0 <= i < j < |rest|
      ensures rest[i].0 != rest[j].0
    {
      assert rest[i] == options[i + 1] && rest[j] == options[j + 1];
    }
  }

  lemma AppendFirst<T>(a: seq<T>, b: seq<T>)
    requires b != []
    ensures (a + [b[0]]) + b[1..] == a + b
  {
  }

  /** Valid options under distinct new keys are stored as given, in their order. */
  lemma {:induction false} SetOptionsStoresValid(acc: Entries, options: Entries)
    requires StorableOptions(acc, options)
    ensures SetOptions(Some(acc), options) == Some(acc + options)
    decreases |options|
  {
    if options == [] {
      assert acc + options == acc;
    } else {
      var next := acc + [options[0]];
      SetOptionAppends(acc, options[0].0, options[0].1);
      assert SetOptions(Some(acc), options) == SetOptions(Some(next), options[1..]);
      StorableRest(acc, options);
      SetOptionsStoresValid(next, options[1..]);
      AppendFirst(acc, options);
    }
  }

  /** The four parameters of the service's unit test, set on an empty search, are stored as given. */
  lemma SetParametersOfTest()
    ensures var o := [(SearchStringKey, Str("BN1 1AA")), (OffsetKey, Int(1)), (LimitKey, Int(10)), (AddressTypeKey, Str("residential"))];
      SetOptions(Some([]), o) == Some(o)
  {
    var o := [(SearchStringKey, Str("BN1 1AA")), (OffsetKey, Int(1)), (LimitKey, Int(10)), (AddressTypeKey, Str("residential"))];
    assert BnAt("BN1 1AA", 1, 1);
    CleanKeepsFormatted("BN1 1AA", 1);
    assert StorableOptions([], o);
    SetOptionsStoresValid([], o);
    assert [] + o == o;
  }

  /** Options under unknown keys leave an empty search empty. */
  lemma SetNonsenseOfTest()
    ensures SetOptions(Some([]), [(StrKey("garbage"), Str("qwertyuiop")), (StrKey("more_garbage"), Str("asdfghjkl")),
      (StrKey("yet_more_garbage"), Str("zxcvbnm"))]) == Some([])
  {
    SetOptionsIgnoresUnknown(Some([]), [(StrKey("garbage"), Str("qwertyuiop")), (StrKey("more_garbage"), Str("asdfghjkl")),
      (StrKey("yet_more_garbage"), Str("zxcvbnm"))]);
  }

  const DirtyPostcode: string := "bn11aa"

  /** A dirty postcode is stored formatted. */
  lemma SetDirtyPostcodeOfTest()
    ensures SetOptions(Some([]), [(SearchStringKey, Str(DirtyPostcode))]) == Some([(SearchStringKey, Str("BN1 1AA"))])
  {
    var s := DirtyPostcode;
    assert BnAt(s, 1, 0);
    CleanFormatsPostcode(s, 1, 0);
    var r := CleanSearchIfPostcode(s);
    assert forall j | 0 <= j < 7 :: r[j] == "BN1 1AA"[j];
    assert r == "BN1 1AA";
    var o := [(SearchStringKey, Str(s))];
    assert SetOptions(Some([]), o) == SetOptions(SetOption(Some([]), SearchStringKey, Str(s)), o[1..]);
  }

  // ---------------------------------------------------------------------
  // addressLookup

  /** The options `addressLookup` passes to `setSearchParameters`. */
  function LookupOptions(search: string, addressType: string, limit: Value, offset: Value): Entries
  {
    [(SearchStringKey, Str(search)), (AddressTypeKey, Str(addressType)), (LimitKey, limit), (OffsetKey, offset)]
  }

  /** The parameters posted to the hub after `initSearch` and `setSearchParameters`. */
  function LookupRequest(search: string, addressType: string, limit: Value, offset: Value): Entries
  {
    Current(SetOptions(Some([]), LookupOptions(search, addressType, limit, offset)))
  }

  /**
   * Without a limit or an offset (their NULL defaults) the request holds the
   * cleaned search string and, when it is a known one, the address type; nothing else.
   */
  lemma LookupRequestWithoutPaging(search: string, addressType: string)
    ensures var r := LookupRequest(search, addressType, Null, Null);
      && Lookup(r, SearchStringKey) == Some(Str(CleanSearchIfPostcode(search)))
      && Lookup(r, AddressTypeKey) == (if IsAddressType(Str(addressType)) then Some(Str(addressType)) else None)
      && Lookup(r, LimitKey).None? && Lookup(r, OffsetKey).None?
      && |r| == (if IsAddressType(Str(addressType)) then 2 else 1)
  {
    var o := LookupOptions(search, addressType, Null, Null);
    var p1 := SetOption(Some([]), o[0].0, o[0].1);
    assert p1 == Some([(SearchStringKey, Str(CleanSearchIfPostcode(search)))]);
    var p2 := SetOption(p1, o[1].0, o[1].1);
    assert SetOptions(Some([]), o) == SetOptions(p1, o[1..]);
    assert o[1..][1..] == o[2..] && o[2..][1..] == o[3..] && o[3..][1..] == [];
    assert SetOptions(p1, o[1..]) == SetOptions(p2, o[2..]);
    assert !IsNumeric(Null);
    assert SetOptions(p2, o[2..]) == SetOptions(p2, o[3..]);
    assert SetOptions(p2, o[3..]) == SetOptions(p2, []);
  }

  /** The request of the service's unit test: a formatted postcode and a residential search. */
  lemma LookupRequestOfTest()
    ensures LookupRequest("BN1 1AA", "residential", Null, Null)
      == [(SearchStringKey, Str("BN1 1AA")), (AddressTypeKey, Str("residential"))]
  {
    var s := "BN1 1AA";
    assert BnAt(s, 1, 1);
    CleanKeepsFormatted(s, 1);
    LookupRequestWithoutPaging(s, "residential");
  }

  /**
   * The decision `addressLookup` takes on the hub's answer: FALSE on a
   * status outside the 200s, `[]` when the address list is missing or
   * empty, the address list otherwise.
   */
  function LookupResult(status: int, results: Value): (r: Value)
    ensures r == Bool(false) <==> status < 200 || status >= 300
    ensures 200 <= status < 300 && !Truthy(Index(results, K("addresslist"))) ==> r == Arr([])
    ensures 200 <= status < 300 && Truthy(Index(results, K("addresslist"))) ==> r == Index(results, K("addresslist"))
  {
    if status < 200 || status >= 300 then Bool(false)
    else
      var list := Index(results, K("addresslist"));
      if !Truthy(list) then Arr([]) else list
  }

  /**
   * `addressLookup`: a fresh search with the given options; the hub's status
   * code and decoded body stand for the POST it sends.  Returns the answer and
   * the parameters posted.
   */
  method AddressLookup(search: string, addressType: string, limit: Value, offset: Value, status: int, results: Value)
    returns (r: Value, posted: Entries)
    ensures posted == LookupRequest(search, addressType, limit, offset)
    ensures ValidParams(posted)
    ensures r == LookupResult(status, results)
  {
    var service := new AddressLookupService();
    service.InitSearch();
    service.SetSearchParameters(LookupOptions(search, addressType, limit, offset));
    posted := Current(service.searchParameters);
    SetOptionsValid(Some([]), LookupOptions(search, addressType, limit, offset));
    r := LookupResult(status, results);
  }
}
