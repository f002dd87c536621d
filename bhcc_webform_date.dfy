/**
 * The composite date element of the bhcc_webform_date module: three parts
 * (day, month, year) validated together once the webform is submitted.
 *
 * The element key is the element's only parent (`#parents` is
 * `[key]`, as webform keeps submission values flat), so an error set on the
 * element is filed under `key` and its parts' errors under `key][...`.
 */
module BhccWebformDate {
  import opened Php
  import opened FormState

  const DayKey: Key := StrKey("day")
  const MonthKey: Key := StrKey("month")
  const YearKey: Key := StrKey("year")

  const RequiredSuffix := " field is required."
  const NotADate := "The date is not a correct date."
  const YearOutOfRange := "The year must be between 1900 and 2100."
  const TooEarly := "The date must be on or after "
  const TooLate := "The date must be on or before "

  /**
   * The date services the validator consults, which depend on the clock and
   * the time zone: `date('Y')`; whether `strtotime` puts a date before or
   * after a bound; `date('d/m/Y')` of a bound; `date('w')` of a date; and the
   * allowed week days listed by name, joined with 'or'.
   */
  datatype Clock = Clock(
    currentYear: int,
    earlier: (string, string) -> bool,
    later: (string, string) -> bool,
    shown: string -> string,
    weekday: string -> string,
    weekdayNames: Value -> string)

  /**
   * The properties of the element the validator reads or writes.  A
   * `...States` flag says that the part has a `#states` required entry; an
   * `...Access` value is `#day__access` and so on (Null when unset).
   */
  datatype DateElement = DateElement(
    visible: bool,
    title: string,
    parent: string,
    required: Value,
    dayStates: bool, monthStates: bool, yearStates: bool,
    dayRequired: Value, monthRequired: Value, yearRequired: Value,
    dayAccess: Value, monthAccess: Value, yearAccess: Value,
    dateMin: Value, dateMax: Value, daysOfWeek: Value)

  /**
   * What the validator returns: nothing, or FALSE; or the TypeError PHP 8's
   * `in_array` throws out of it when `#days_of_week` is not an array.
   */
  datatype Return = NoValue | False | ThrewTypeError

  /** A `#states` required entry on any part makes the element itself required instead. */
  function RequiredFromStates(el: DateElement): (r: DateElement)
    ensures (el.dayStates || el.monthStates || el.yearStates) ==> r.required == Bool(true)
    ensures !r.dayStates && !r.monthStates && !r.yearStates
    ensures r == el.(required := r.required, dayStates := false, monthStates := false, yearStates := false)
    ensures !(el.dayStates || el.monthStates || el.yearStates) ==> r == el
  {
    if el.dayStates || el.monthStates || el.yearStates then
      el.(required := Bool(true), dayStates := false, monthStates := false, yearStates := false)
    else el
  }

  /** The element is required outright or through all three part flags. */
  predicate IsRequired(el: DateElement)
  {
    Truthy(el.required) || (Truthy(el.dayRequired) && Truthy(el.monthRequired) && Truthy(el.yearRequired))
  }

  /** The submitted parts with every hidden part given its default. */
  function Defaulted(values: Value, el: DateElement, clock: Clock): Entries
  {
    var e0 := if values.Arr? then values.entries else [];
    var e1 := if el.dayAccess != Null then Put(e0, DayKey, Int(1)) else e0;
    var e2 := if el.monthAccess != Null then Put(e1, MonthKey, Int(1)) else e1;
    if el.yearAccess != Null then Put(e2, YearKey, Str(IntToString(clock.currentYear))) else e2
  }

  function Part(d: Entries, k: Key): Value { Index(Arr(d), k) }

  /** What the checks read of the date values: the three parts, and all values joined with '-'. */
  datatype DateParts = DateParts(day: Value, month: Value, year: Value, date: string)

  function PartsOf(d: Entries): DateParts
  {
    DateParts(Part(d, DayKey), Part(d, MonthKey), Part(d, YearKey), DateString(d))
  }

  predicate AllEmpty(p: DateParts)
  {
    !Truthy(p.day) && !Truthy(p.month) && !Truthy(p.year)
  }

  predicate IsLeapYear(y: int)
  {
    y % 4 == 0 && (y % 100 != 0 || y % 400 == 0)
  }

  function DaysInMonth(m: int, y: int): (n: int)
    requires 1 <= m <= 12
    ensures 28 <= n <= 31
  {
    if m == 2 then (if IsLeapYear(y) then 29 else 28)
    else if m == 4 || m == 6 || m == 9 || m == 11 then 30
    else 31
  }

  /** `checkdate(month, day, year)`: a day of the Gregorian calendar in the years 1 to 32767. */
  predicate CheckDate(m: int, d: int, y: int)
  {
    1 <= m <= 12 && 1 <= y <= 32767 && 1 <= d <= DaysInMonth(m, y)
  }

  /** `implode('-', $date_values)`: the parts in the order the array holds them. */
  function DateString(d: Entries): string
  {
    Join("-", Strings(ValuesOf(d)))
  }

  /** A min or max bound with slashes turned into dashes. */
  function Bound(v: Value): string
  {
    StrReplace("/", "-", ToStr(v))
  }

  /** `t('%name must be a %days.')`: both values are plain strings, escaped and emphasised. */
  function WeekdayMessage(name: string, days: string): string
  {
    Placeholder(name) + " must be a " + Placeholder(days) + "."
  }

  /** How the week-day error names the element: its title, else its first parent. */
  function DisplayName(el: DateElement): string
  {
    if !Truthy(Str(el.title)) then el.parent else el.title
  }

  /**
   * `in_array` of the week-day digit among the allowed days, for the values a
   * checkbox list stores: a digit string or an integer is equal to the digit
   * when its decimal text is.  PHP's loose comparison also lets a `TRUE`
   * entry, and a numeric string such as `03`, equal a digit; those are not
   * modelled.
   */
  predicate InDays(day: string, days: Value)
  {
    days.Arr? && exists i :: 0 <= i < |days.entries| && (days.entries[i].1.Str? || days.entries[i].1.Int?) && ToStr(days.entries[i].1) == day
  }

  /**
   * The checks made after the error clean-up, in their order: the error
   * they set on the element, if any, and what the validator returns.
   */
  function Verdict(el: DateElement, p: DateParts, clock: Clock): (Option<string>, Return)
  {
    if AllEmpty(p) then
      if IsRequired(el) then (Some(el.title + RequiredSuffix), False) else (None, NoValue)
    else
      var m, day, y := ToInt(p.month), ToInt(p.day), ToInt(p.year);
      if !CheckDate(m, day, y) then (Some(NotADate), False)
      else if y < 1900 || y > 2100 then (Some(YearOutOfRange), False)
      else
        var date := p.date;
        if Truthy(el.dateMin) && clock.earlier(date, Bound(el.dateMin)) then
          (Some(TooEarly + Placeholder(clock.shown(Bound(el.dateMin)))), False)
        else if Truthy(el.dateMax) && clock.later(date, Bound(el.dateMax)) then
          (Some(TooLate + Placeholder(clock.shown(Bound(el.dateMax)))), False)
        else if Truthy(el.daysOfWeek) && !el.daysOfWeek.Arr? then (None, ThrewTypeError)
        else if Truthy(el.daysOfWeek) && !InDays(clock.weekday(date), el.daysOfWeek) then
          (Some(WeekdayMessage(DisplayName(el), clock.weekdayNames(el.daysOfWeek))), NoValue)
        else (None, NoValue)
  }

  /** The errors kept when the element's own part errors are cleared: those not under `key]`. */
  function PartErrorsCleared(e: Errors, limit: Limit, key: string): Errors
  {
    Refiled(e, limit, NotUnder(key))
  }

  /** The errors after the clean-up and the checks. */
  function ErrorsAfter(e: Errors, limit: Limit, key: string, msg: Option<string>): Errors
  {
    var base := PartErrorsCleared(e, limit, key);
    if msg.Some? then Added(base, limit, key, msg.value) else base
  }

  /** `BHCCWebformDate::validateWebformComposite`. */
  method ValidateWebformComposite(fs: FormStateErrors, key: string, el: DateElement, visibleThroughParent: bool,
                                  values: Value, clock: Clock)
    returns (element: DateElement, r: Return)
    requires fs.Valid()
    modifies fs
    ensures fs.Valid() && fs.limit == old(fs.limit)
    ensures !el.visible || !visibleThroughParent ==> element == el && r == NoValue && fs.errors == old(fs.errors)
    ensures el.visible && visibleThroughParent ==>
      element == RequiredFromStates(el)
      && r == Verdict(element, PartsOf(Defaulted(values, el, clock)), clock).1
      && fs.errors == ErrorsAfter(old(fs.errors), fs.limit, key, Verdict(element, PartsOf(Defaulted(values, el, clock)), clock).0)
  {
    element := el;
    if !el.visible || !visibleThroughParent {
      return element, NoValue;
    }

    if el.dayStates || el.monthStates || el.yearStates {
      element := element.(required := Bool(true), dayStates := false, monthStates := false, yearStates := false);
    }

    fs.Refile(NotUnder(key));

    // Hidden parts take their defaults.
    var dateValues := Defaulted(values, el, clock);
    r := CheckParts(fs, key, element, PartsOf(dateValues), clock);
  }

  /** The checks on the date values, from the empty test on, as the validator makes them in turn. */
  method CheckParts(fs: FormStateErrors, key: string, element: DateElement, p: DateParts, clock: Clock)
    returns (r: Return)
    requires fs.Valid()
    modifies fs
    ensures fs.Valid() && fs.limit == old(fs.limit)
    ensures r == Verdict(element, p, clock).1
    ensures fs.errors == (if Verdict(element, p, clock).0.Some? then Added(old(fs.errors), fs.limit, key, Verdict(element, p, clock).0.value) else old(fs.errors))
  {
    if !Truthy(p.day) && !Truthy(p.month) && !Truthy(p.year) {
      if IsRequired(element) {
        fs.SetErrorByName(key, element.title + RequiredSuffix);
        return False;
      } else {
        return NoValue;
      }
    }

    var month, day, year := ToInt(p.month), ToInt(p.day), ToInt(p.year);
    if !CheckDate(month, day, year) {
      fs.SetErrorByName(key, NotADate);
      return False;
    }
    if year < 1900 || year > 2100 {
      fs.SetErrorByName(key, YearOutOfRange);
      return False;
    }

    var date := p.date;
    if Truthy(element.dateMin) {
      var min := Bound(element.dateMin);
      if clock.earlier(date, min) {
        fs.SetErrorByName(key, TooEarly + Placeholder(clock.shown(min)));
        return False;
      }
    }
    if Truthy(element.dateMax) {
      var max := Bound(element.dateMax);
      if clock.later(date, max) {
        fs.SetErrorByName(key, TooLate + Placeholder(clock.shown(max)));
        return False;
      }
    }
    if Truthy(element.daysOfWeek) {
      var name := DisplayName(element);
      if !element.daysOfWeek.Arr? {
        return ThrewTypeError;
      }
      if !InDays(clock.weekday(date), element.daysOfWeek) {
        fs.SetErrorByName(key, Placeholder(name) + " must be a " + Placeholder(clock.weekdayNames(element.daysOfWeek)) + ".");
      }
    }
    r := NoValue;
  }

  // ---------------------------------------------------------------------
  // Properties

  /**
   * The clean-up drops exactly the errors filed under the element's parts
   * (a name starting with `key]`) and keeps every other, in its order.
   */
  lemma PartErrors(e: Errors, key: string, x: (string, string))
    ensures x in PartErrorsCleared(e, None, key) <==> x in e && !StartsWith(x.0, key + "]")
    ensures PartErrorsCleared(e, None, key) == Kept(e, NotUnder(key))
  {
    RefiledMembers(e, None, NotUnder(key), x);
    RefiledUnlimited(e, NotUnder(key));
  }

  /** A `#states` required entry on a part makes the element required. */
  lemma StatesRequire(el: DateElement)
    requires el.dayStates || el.monthStates || el.yearStates
    ensures IsRequired(RequiredFromStates(el))
  {
  }

  /** The value the validator uses for a part: its default when hidden, else what was submitted. */
  function PartUsed(values: Value, el: DateElement, clock: Clock, k: Key): Value
  {
    if k == DayKey && el.dayAccess != Null then Int(1)
    else if k == MonthKey && el.monthAccess != Null then Int(1)
    else if k == YearKey && el.yearAccess != Null then Str(IntToString(clock.currentYear))
    else Index(values, k)
  }

  /**
   * A hidden part takes its default (day 1, month 1, the current year);
   * a part that is not hidden keeps the submitted value, and so does any
   * other entry of the submitted array.
   */
  lemma HiddenPartsDefaulted(values: Value, el: DateElement, clock: Clock, k: Key)
    ensures Part(Defaulted(values, el, clock), k) == PartUsed(values, el, clock, k)
  {
    var e0 := if values.Arr? then values.entries else [];
    var e1 := if el.dayAccess != Null then Put(e0, DayKey, Int(1)) else e0;
    var e2 := if el.monthAccess != Null then Put(e1, MonthKey, Int(1)) else e1;
    var year := Str(IntToString(clock.currentYear));
    assert Part(e0, k) == Index(values, k);
    if el.dayAccess != Null { PutPart(e0, DayKey, Int(1), k); }
    if el.monthAccess != Null { PutPart(e1, MonthKey, Int(1), k); }
    if el.yearAccess != Null { PutPart(e2, YearKey, year, k); }
  }

  lemma PutPart(e: Entries, k: Key, v: Value, k2: Key)
    ensures Part(Put(e, k, v), k2) == if k2 == k then v else Part(e, k2)
  {
    PutLookup(e, k, v, k2);
  }

  /**
   * With all three parts hidden and the current year in range, the date is
   * never empty, always a correct date and always within the year range.
   */
  lemma AllHiddenPasses(values: Value, el: DateElement, clock: Clock)
    requires el.dayAccess != Null && el.monthAccess != Null && el.yearAccess != Null
    requires 1900 <= clock.currentYear <= 2100
    ensures var p := PartsOf(Defaulted(values, el, clock));
      !AllEmpty(p) && CheckDate(ToInt(p.month), ToInt(p.day), ToInt(p.year)) && 1900 <= ToInt(p.year) <= 2100
  {
    var d := Defaulted(values, el, clock);
    HiddenPartsDefaulted(values, el, clock, DayKey);
    HiddenPartsDefaulted(values, el, clock, MonthKey);
    HiddenPartsDefaulted(values, el, clock, YearKey);
    DefaultsPass(PartsOf(d), clock.currentYear);
  }

  lemma DefaultsPass(p: DateParts, y: int)
    requires p.day == Int(1) && p.month == Int(1) && p.year == Str(IntToString(y))
    requires 1900 <= y <= 2100
    ensures !AllEmpty(p) && CheckDate(ToInt(p.month), ToInt(p.day), ToInt(p.year)) && 1900 <= ToInt(p.year) <= 2100
  {
    IntCastOfIntToString(y);
  }

  /**
   * `(int)` reads the whole numeric prefix: a year typed as `2e3` is the year
   * 2000, so 1 January of it passes an element without further limits.
   */
  lemma ExponentYearPasses(el: DateElement, date: string, clock: Clock)
    requires !Truthy(el.dateMin) && !Truthy(el.dateMax) && !Truthy(el.daysOfWeek)
    ensures Verdict(el, DateParts(Str("1"), Str("1"), Str("2e3"), date), clock) == (None, NoValue)
  {
    IntCastOfIntToString(1);
    IntCastExponent();
    assert CheckDate(1, 1, 2000);
  }

  /** All parts empty: a required element gets `<title> field is required.` and FALSE, any other passes. */
  lemma EmptyDate(el: DateElement, p: DateParts, clock: Clock)
    requires AllEmpty(p)
    ensures IsRequired(el) ==> Verdict(el, p, clock) == (Some(el.title + RequiredSuffix), False)
    ensures !IsRequired(el) ==> Verdict(el, p, clock) == (None, NoValue)
  {
  }

  /**
   * The checks run in order and the first that fails decides: a date that
   * `checkdate` refuses is reported as such whatever its year, and the year
   * range is only checked on a correct date.
   */
  lemma FirstFailureDecides(el: DateElement, p: DateParts, clock: Clock)
    requires !AllEmpty(p)
    ensures var m, day, y := ToInt(p.month), ToInt(p.day), ToInt(p.year);
      (!CheckDate(m, day, y) <==> Verdict(el, p, clock) == (Some(NotADate), False))
      && (CheckDate(m, day, y) && (y < 1900 || y > 2100) ==> Verdict(el, p, clock) == (Some(YearOutOfRange), False))
  {
    var v := Verdict(el, p, clock);
    var m, day, y := ToInt(p.month), ToInt(p.day), ToInt(p.year);
    if CheckDate(m, day, y) && 1900 <= y <= 2100 {
      if Truthy(el.dateMin) && clock.earlier(p.date, Bound(el.dateMin)) {
        assert v.0.value[9] == TooEarly[9] != NotADate[9];
      } else if Truthy(el.dateMax) && clock.later(p.date, Bound(el.dateMax)) {
        assert v.0.value[9] == TooLate[9] != NotADate[9];
      }
    }
  }

  /**
   * Every check but the week-day check returns FALSE with its error; a date
   * on a day of the week that is not allowed only gets an error.
   */
  lemma OnlyWeekdayWarns(el: DateElement, p: DateParts, clock: Clock)
    ensures Verdict(el, p, clock).1 == False ==> Verdict(el, p, clock).0.Some?
    ensures Verdict(el, p, clock).0.Some? && Verdict(el, p, clock).1 == NoValue ==>
      !AllEmpty(p) && Truthy(el.daysOfWeek)
      && !InDays(clock.weekday(p.date), el.daysOfWeek)
      && CheckDate(ToInt(p.month), ToInt(p.day), ToInt(p.year))
      && 1900 <= ToInt(p.year) <= 2100
  {
  }

  /**
   * A `#days_of_week` that is set but not an array makes `in_array` throw:
   * this happens exactly on a non-empty date that passes every other check,
   * and no error is set.
   */
  lemma DaysNotArrayThrows(el: DateElement, p: DateParts, clock: Clock)
    ensures Verdict(el, p, clock).1 == ThrewTypeError <==>
      !AllEmpty(p) && Truthy(el.daysOfWeek) && !el.daysOfWeek.Arr?
      && Verdict(el.(daysOfWeek := Null), p, clock) == (None, NoValue)
    ensures Verdict(el, p, clock).1 == ThrewTypeError ==> Verdict(el, p, clock).0.None?
  {
  }

  /** The Gregorian rules `checkdate` applies: 29 February only in leap years ... */
  lemma LeapDay(y: int)
    ensures CheckDate(2, 29, y) <==> 1 <= y <= 32767 && IsLeapYear(y)
    ensures CheckDate(2, 29, 2000) && !CheckDate(2, 29, 1900) && CheckDate(2, 29, 2024)
  {
  }

  /** ... the 31st only in the long months ... */
  lemma ThirtyFirst(m: int, y: int)
    requires 1 <= y <= 32767
    ensures CheckDate(m, 31, y) <==> m in {1, 3, 5, 7, 8, 10, 12}
  {
  }

  /** ... and the first 28 days of every month of every year from 1 to 32767. */
  lemma EarlyDays(m: int, d: int, y: int)
    requires 1 <= m <= 12 && 1 <= d <= 28 && 1 <= y <= 32767
    ensures CheckDate(m, d, y)
    ensures !CheckDate(m, d, 0) && !CheckDate(m, d, 32768) && !CheckDate(13, d, y) && !CheckDate(m, 0, y)
  {
  }
}
