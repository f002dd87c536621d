/**
 * The webform element plugin of the BHCC date: its default properties, the
 * one-line text of a submitted date, and the check of the `#date_...`
 * configuration properties.
 *
 * `strtotime` is the parameter `parses`: whether it gives a time (rather than
 * FALSE) for a string, which depends on the clock and the time zone.
 */
module BhccWebformDatePlugin {
  import opened Php
  import opened Regex
  import opened FormState

  // ---------------------------------------------------------------------
  // defineDefaultProperties

  /** `['0', ..., '6']`: every day of the week, Sunday first. */
  function AllWeekDays(): Entries
  {
    [(IntKey(0), Str("0")), (IntKey(1), Str("1")), (IntKey(2), Str("2")), (IntKey(3), Str("3")),
     (IntKey(4), Str("4")), (IntKey(5), Str("5")), (IntKey(6), Str("6"))]
  }

  /** The plugin's own defaults, put before those of the composite base. */
  function OwnDefaults(): Entries
  {
    [(StrKey("date_date_min"), Str("")), (StrKey("date_date_max"), Str("")), (StrKey("days_of_week"), Arr(AllWeekDays()))]
  }

  /** `[...] + parent::defineDefaultProperties()`. */
  function DefaultProperties(parent: Entries): Entries
  {
    Union(OwnDefaults(), parent)
  }

  /**
   * No minimum, no maximum and every day of the week allowed, whatever the
   * parent defines under those names; every other default is the parent's.
   */
  lemma DefaultsOverParent(parent: Entries, k: Key)
    ensures Lookup(DefaultProperties(parent), StrKey("date_date_min")) == Some(Str(""))
    ensures Lookup(DefaultProperties(parent), StrKey("date_date_max")) == Some(Str(""))
    ensures Lookup(DefaultProperties(parent), StrKey("days_of_week")) == Some(Arr(AllWeekDays()))
    ensures k != StrKey("date_date_min") && k != StrKey("date_date_max") && k != StrKey("days_of_week") ==>
      Lookup(DefaultProperties(parent), k) == Lookup(parent, k)
  {
    UnionLookup(OwnDefaults(), parent, StrKey("date_date_min"));
    UnionLookup(OwnDefaults(), parent, StrKey("date_date_max"));
    UnionLookup(OwnDefaults(), parent, StrKey("days_of_week"));
    UnionLookup(OwnDefaults(), parent, k);
  }

  // ---------------------------------------------------------------------
  // formatTextItemValue and formatHtmlItemValue

  const YearKey: Key := StrKey("year")
  const MonthKey: Key := StrKey("month")
  const DayKey: Key := StrKey("day")

  /** A part as written, or '' when it is empty. */
  function Text(v: Value): string
  {
    if Truthy(v) then ToStr(v) else ""
  }

  /** `-part` for a part that is not empty, else ''. */
  function Dashed(v: Value): string
  {
    if Truthy(v) then "-" + ToStr(v) else ""
  }

  /** The line for a year, a month and a day. */
  function Line(y: Value, m: Value, d: Value): string
  {
    Text(y) + Dashed(m) + Dashed(d)
  }

  /**
   * `formatTextItemValue`, and `formatHtmlItemValue`, which returns it: a
   * single line, the year then `-month` and `-day` for those not empty.
   */
  function FormatText(value: Value): (lines: seq<string>)
    ensures |lines| == 1
  {
    [Line(Index(value, YearKey), Index(value, MonthKey), Index(value, DayKey))]
  }

  /** The month and the day that are not empty, in that order. */
  function Present(m: Value, d: Value): seq<string>
  {
    (if Truthy(m) then [ToStr(m)] else []) + (if Truthy(d) then [ToStr(d)] else [])
  }

  lemma JoinTwo(a: string, b: string)
    ensures Join("-", [a, b]) == a + "-" + b
  {
    assert [a, b][1..] == [b];
  }

  lemma JoinThree(a: string, b: string, c: string)
    ensures Join("-", [a, b, c]) == a + "-" + (b + "-" + c)
  {
    assert [a, b, c][1..] == [b, c];
    JoinTwo(b, c);
  }

  lemma ImplodeOptional(a: string, b: string, c: string, hasB: bool, hasC: bool)
    ensures a + (if hasB then "-" + b else "") + (if hasC then "-" + c else "")
      == Join("-", [a] + (if hasB then [b] else []) + (if hasC then [c] else []))
  {
    if hasB && hasC {
      assert [a] + [b] + [c] == [a, b, c];
      JoinThree(a, b, c);
    } else if hasB {
      assert [a] + [b] + [] == [a, b];
      JoinTwo(a, b);
    } else if hasC {
      assert [a] + [] + [c] == [a, c];
      JoinTwo(a, c);
    } else {
      assert [a] + [] + [] == [a];
    }
  }

  /** The line is the year text and the month and day present, imploded with '-'. */
  lemma LineIsImplode(y: Value, m: Value, d: Value)
    ensures Line(y, m, d) == Join("-", [Text(y)] + Present(m, d))
  {
    ImplodeOptional(Text(y), ToStr(m), ToStr(d), Truthy(m), Truthy(d));
    assert [Text(y)] + Present(m, d) == [Text(y)] + (if Truthy(m) then [ToStr(m)] else []) + (if Truthy(d) then [ToStr(d)] else []);
  }

  /**
   * When no part holds a '-', `explode('-')` of the line gives back the year
   * text and the parts present: the line loses nothing.
   */
  lemma LineRoundTrip(y: Value, m: Value, d: Value)
    requires Lacks(Text(y), '-') && forall k :: 0 <= k < |Present(m, d)| ==> Lacks(Present(m, d)[k], '-')
    ensures Explode("-", Line(y, m, d)) == [Text(y)] + Present(m, d)
  {
    LineIsImplode(y, m, d);
    ExplodeOfJoin("-", [Text(y)] + Present(m, d));
  }

  /** With no month the line is `Y-D`; with no part at all it is ''. */
  lemma LineGaps(y: Value, m: Value, d: Value)
    ensures !Truthy(m) && Truthy(y) && Truthy(d) ==> Line(y, m, d) == ToStr(y) + "-" + ToStr(d)
    ensures !Truthy(m) && !Truthy(y) && !Truthy(d) ==> Line(y, m, d) == ""
  {
    LineIsImplode(y, m, d);
    if !Truthy(m) && Truthy(y) && Truthy(d) {
      assert [Text(y)] + Present(m, d) == [ToStr(y), ToStr(d)];
      JoinTwo(ToStr(y), ToStr(d));
    }
    if !Truthy(m) && !Truthy(y) && !Truthy(d) {
      assert [Text(y)] + Present(m, d) == [""];
    }
  }

  // ---------------------------------------------------------------------
  // validateConfigurationForm

  /** `/^\[[^]]+\]$/`: a token such as `[webform_submission:created:html_date]`. */
  const TokenPattern: Pattern := [
    Item(Class(c => c == '['), 1, Some(1)),
    Item(Class(c => c != ']'), 1, None),
    Item(Class(c => c == ']'), 1, Some(1))]

  predicate IsToken(s: string)
  {
    Matches(TokenPattern, s, Dollar)
  }

  /** A token: '[', one or more characters other than ']', ']', then at most a final newline. */
  predicate TokenShape(s: string)
  {
    var t := if |s| > 0 && s[|s| - 1] == '\n' then s[..|s| - 1] else s;
    |t| >= 3 && t[0] == '[' && t[|t| - 1] == ']' && Lacks(t[1..|t| - 1], ']')
  }

  lemma TokenSound(s: string)
    requires IsToken(s)
    ensures TokenShape(s)
  {
    MatchesIff(TokenPattern, s, Dollar);
    var p := TokenPattern;
    assert p[1..] == [p[1], p[2]] && p[1..][1..] == [p[2]];
    var cs :| Fits(p, s, 0, Dollar, cs);
    var n := cs[1];
    assert cs[0] == 1 && RunOf(p[0].cls, s, 0, 1);
    assert Fits(p[1..], s, 1, Dollar, cs[1..]);
    assert 1 <= n && RunOf(p[1].cls, s, 1, n);
    assert Fits(p[1..][1..], s, 1 + n, Dollar, cs[1..][1..]);
    assert RunOf(p[2].cls, s, 1 + n, 1);
    assert EndOk(s, 2 + n, Dollar);
    var t := if |s| > 0 && s[|s| - 1] == '\n' then s[..|s| - 1] else s;
    assert |t| == 2 + n;
    var body := t[1..|t| - 1];
    forall j | 0 <= j < n ensures body[j] != ']' {
      assert body[j] == s[1 + j] && In(p[1].cls, s[1 + j]);
    }
  }

  lemma TokenComplete(s: string)
    requires TokenShape(s)
    ensures IsToken(s)
  {
    var p := TokenPattern;
    assert p[1..] == [p[1], p[2]] && p[1..][1..] == [p[2]] && p[1..][1..][1..] == [];
    var t := if |s| > 0 && s[|s| - 1] == '\n' then s[..|s| - 1] else s;
    var n := |t| - 2;
    var body := t[1..|t| - 1];
    assert forall j :: 0 <= j < n ==> s[1 + j] == body[j];
    assert Fits([], s, 2 + n, Dollar, []);
    assert Fits(p[1..][1..], s, 1 + n, Dollar, [1]);
    assert Fits(p[1..], s, 1, Dollar, [n, 1]);
    assert Fits(p, s, 0, Dollar, [1, n, 1]);
    MatchesIff(TokenPattern, s, Dollar);
  }

  /** `preg_match('/^\[[^]]+\]$/')` holds exactly for the token shape. */
  lemma TokenIff(s: string)
    ensures IsToken(s) <==> TokenShape(s)
  {
    if IsToken(s) { TokenSound(s); }
    if TokenShape(s) { TokenComplete(s); }
  }

  const DatePrefix := "#date_"
  const ErrorHead := "The "
  const ErrorTail := " could not be interpreted in <a href=\"https://www.gnu.org/software/tar/manual/html_chapter/tar_7.html#Date-input-formats\">GNU Date Input Format</a>."

  /** A property the check inspects: its key starts with `#date_`. */
  predicate IsDateProperty(k: Key)
  {
    StartsWith(KeyString(k), DatePrefix)
  }

  /** `ltrim($key, '#')`. */
  function TrimHashes(s: string): (r: string)
    ensures |r| <= |s|
  {
    if s != [] && s[0] == '#' then TrimHashes(s[1..]) else s
  }

  /** The `#title` of the configuration field a property is set by ('' for a field the form lacks). */
  function TitleOf(name: string): string
  {
    if name == "date_date_min" then "Date minimum"
    else if name == "date_date_max" then "Date maximum"
    else ""
  }

  function ErrorMessage(name: string): string
  {
    ErrorHead + TitleOf(name) + ErrorTail
  }

  /** `(array) $value`, each item read as a string. */
  function DateValues(v: Value): seq<string>
  {
    if v.Arr? then Strings(ValuesOf(v.entries)) else [ToStr(v)]
  }

  /** A value that is not a token and that `strtotime` refuses once slashes are dashes. */
  predicate Rejected(s: string, parses: string -> bool)
  {
    !TokenShape(s) && !parses(StrReplace("/", "-", s))
  }

  /** One error on the field `name` per rejected value, in order. */
  function ValueErrors(name: string, vals: seq<string>, parses: string -> bool): Errors
  {
    if vals == [] then []
    else
      var rest := ValueErrors(name, vals[..|vals| - 1], parses);
      if Rejected(vals[|vals| - 1], parses) then rest + [(name, ErrorMessage(name))] else rest
  }

  /** The errors one property calls for: none unless it is a `#date_` property with a value. */
  function PropertyErrors(k: Key, v: Value, parses: string -> bool): Errors
  {
    if IsDateProperty(k) && Truthy(v) then ValueErrors(TrimHashes(KeyString(k)), DateValues(v), parses) else []
  }

  /** `PropertyErrors` as a function of the (key, value) pair. */
  function ErrorsOf(parses: string -> bool): ((Key, Value)) -> Errors
  {
    (kv: (Key, Value)) => PropertyErrors(kv.0, kv.1, parses)
  }

  /** The lists `f` gives for the items of `xs`, one after the other. */
  function ConcatMap<T>(xs: seq<T>, f: T -> Errors): Errors
  {
    if xs == [] then [] else ConcatMap(xs[..|xs| - 1], f) + f(xs[|xs| - 1])
  }

  /** The errors the check calls for, property by property. */
  function ConfigErrors(props: Entries, parses: string -> bool): Errors
  {
    ConcatMap(props, ErrorsOf(parses))
  }

  lemma ConfigErrorsStep(props: Entries, i: int, parses: string -> bool)
    requires 0 <= i < |props|
    ensures ConfigErrors(props[..i + 1], parses) == ConfigErrors(props[..i], parses) + PropertyErrors(props[i].0, props[i].1, parses)
  {
    PrefixStep(props, i);
  }

  lemma {:induction false} ConcatMapEmpty<T>(xs: seq<T>, f: T -> Errors)
    ensures ConcatMap(xs, f) == [] <==> forall i :: 0 <= i < |xs| ==> f(xs[i]) == []
  {
    if xs != [] {
      var p := xs[..|xs| - 1];
      ConcatMapEmpty(p, f);
      assert forall i :: 0 <= i < |p| ==> p[i] == xs[i];
    }
  }

  /** A property the check lets through: not a `#date_` property, empty, or with no value refused. */
  predicate PropertyPasses(k: Key, v: Value, parses: string -> bool)
  {
    IsDateProperty(k) && Truthy(v) ==> forall j :: 0 <= j < |DateValues(v)| ==> !Rejected(DateValues(v)[j], parses)
  }

  lemma {:induction false} ValueErrorsEmpty(name: string, vals: seq<string>, parses: string -> bool)
    ensures ValueErrors(name, vals, parses) == [] <==> forall j :: 0 <= j < |vals| ==> !Rejected(vals[j], parses)
  {
    if vals != [] {
      var p := vals[..|vals| - 1];
      ValueErrorsEmpty(name, p, parses);
      assert forall j :: 0 <= j < |p| ==> p[j] == vals[j];
    }
  }

  lemma PropertyErrorsEmpty(k: Key, v: Value, parses: string -> bool)
    ensures PropertyErrors(k, v, parses) == [] <==> PropertyPasses(k, v, parses)
  {
    if IsDateProperty(k) && Truthy(v) {
      ValueErrorsEmpty(TrimHashes(KeyString(k)), DateValues(v), parses);
    }
  }

  /** The check calls for no error exactly when every property passes. */
  lemma ConfigErrorsEmpty(props: Entries, parses: string -> bool)
    ensures ConfigErrors(props, parses) == [] <==> forall i :: 0 <= i < |props| ==> PropertyPasses(props[i].0, props[i].1, parses)
  {
    ConcatMapEmpty(props, ErrorsOf(parses));
    forall i | 0 <= i < |props| {
      PropertyErrorsEmpty(props[i].0, props[i].1, parses);
    }
  }

  /** A token is never put to `strtotime`: a property whose values are all tokens calls for no error. */
  lemma {:induction false} TokensPass(name: string, vals: seq<string>, parses: string -> bool)
    requires forall j :: 0 <= j < |vals| ==> IsToken(vals[j])
    ensures ValueErrors(name, vals, parses) == []
  {
    ValueErrorsEmpty(name, vals, parses);
    forall j | 0 <= j < |vals| ensures !Rejected(vals[j], parses) {
      TokenIff(vals[j]);
    }
  }

  /** `'0'` is empty to PHP: a `#date_` property set to it is skipped, not parsed. */
  lemma ZeroSkipped(k: Key, parses: string -> bool)
    ensures PropertyErrors(k, Str("0"), parses) == []
  {
  }

  /** The inner loop: each value of one `#date_` property, an error on its field for each refused. */
  method CheckDateValues(fs: FormStateErrors, name: string, vals: seq<string>, parses: string -> bool) returns (found: bool)
    requires fs.Valid()
    modifies fs
    ensures fs.Valid() && fs.limit == old(fs.limit)
    ensures fs.errors == AddAll(old(fs.errors), fs.limit, ValueErrors(name, vals, parses))
    ensures found <==> ValueErrors(name, vals, parses) != []
  {
    found := false;
    var j := 0;
    while j < |vals|
      invariant 0 <= j <= |vals| && fs.Valid() && fs.limit == old(fs.limit)
      invariant fs.errors == AddAll(old(fs.errors), fs.limit, ValueErrors(name, vals[..j], parses))
      invariant found <==> ValueErrors(name, vals[..j], parses) != []
    {
      PrefixStep(vals, j);
      var token := IsToken(vals[j]);
      TokenIff(vals[j]);
      if !token {
        var dashed := StrReplace("/", "-", vals[j]);
        if !parses(dashed) {
          found := true;
          AddAllSnoc(old(fs.errors), fs.limit, ValueErrors(name, vals[..j], parses), (name, ErrorMessage(name)));
          fs.SetErrorByName(name, ErrorHead + TitleOf(name) + ErrorTail);
        }
      }
      j := j + 1;
    }
    PrefixAll(vals);
  }

  lemma NonEmptyAppend(a: Errors, b: Errors)
    ensures a + b != [] <==> a != [] || b != []
  {
    assert |a + b| == |a| + |b|;
  }

  /** The body of the loop over the properties: a `#date_` property with a value has its values checked. */
  method CheckProperty(fs: FormStateErrors, key: Key, value: Value, parses: string -> bool) returns (found: bool)
    requires fs.Valid()
    modifies fs
    ensures fs.Valid() && fs.limit == old(fs.limit)
    ensures fs.errors == AddAll(old(fs.errors), fs.limit, PropertyErrors(key, value, parses))
    ensures found <==> PropertyErrors(key, value, parses) != []
  {
    found := false;
    if StartsWith(KeyString(key), DatePrefix) && Truthy(value) {
      found := CheckDateValues(fs, TrimHashes(KeyString(key)), DateValues(value), parses);
    }
  }

  /**
   * `validateConfigurationForm`: sets an error on the field of each value the
   * check refuses, and returns FALSE exactly when it found one.
   */
  method ValidateConfigurationForm(fs: FormStateErrors, props: Entries, parses: string -> bool) returns (valid: bool)
    requires fs.Valid()
    modifies fs
    ensures fs.Valid() && fs.limit == old(fs.limit)
    ensures fs.errors == AddAll(old(fs.errors), fs.limit, ConfigErrors(props, parses))
    ensures valid <==> ConfigErrors(props, parses) == []
  {
    var hasError := false;
    var i := 0;
    while i < |props|
      invariant 0 <= i <= |props| && fs.Valid() && fs.limit == old(fs.limit)
      invariant fs.errors == AddAll(old(fs.errors), fs.limit, ConfigErrors(props[..i], parses))
      invariant hasError <==> ConfigErrors(props[..i], parses) != []
    {
      ConfigErrorsStep(props, i, parses);
      ghost var before := ConfigErrors(props[..i], parses);
      var found := CheckProperty(fs, props[i].0, props[i].1, parses);
      AddAllAppend(old(fs.errors), fs.limit, before, PropertyErrors(props[i].0, props[i].1, parses));
      NonEmptyAppend(before, PropertyErrors(props[i].0, props[i].1, parses));
      hasError := hasError || found;
      i := i + 1;
    }
    PrefixAll(props);
    valid := !hasError;
  }
}
