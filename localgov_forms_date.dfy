/**
 * The `localgov_forms_date` element: a day/month/year date list whose parts
 * are typed as text.  Its validators flag parts that are not all digits and
 * put the raw input back into the sub-elements, and its value callback turns
 * the `TypeError` that non-numeric parts raise in the parent date list into
 * a form error.
 */
module LocalgovFormsDate {
  import opened Php
  import opened FormState

  const DayKey: Key := StrKey("day")
  const MonthKey: Key := StrKey("month")
  const YearKey: Key := StrKey("year")
  const ObjectKey: Key := StrKey("object")

  /** The date object the value callback returns in place of a parsed date. */
  const PlaceholderDate: Value := Obj("DateTimePlus")

  const NonNumericError: string := "Non-numeric date parts detected."

  /** `$element['#value'][$part] ?? ''`. */
  function Part(raw: Value, k: Key): Value
  {
    Coalesce(raw, k, Str(""))
  }

  /** A part `areDatePartsNumeric` rejects: not PHP-empty and not all ASCII digits. */
  predicate Invalid(part: Value)
  {
    Truthy(part) && !CtypeDigit(part)
  }

  /** `[msg]` when `flag` holds. */
  function Flag(flag: bool, msg: string): (r: seq<string>)
    ensures flag <==> r == [msg]
    ensures !flag <==> r == []
  {
    if flag then [msg] else []
  }

  /** The messages `areDatePartsNumeric` collects, day first, then month, then year. */
  function InvalidMessages(raw: Value): seq<string>
  {
    Flag(Invalid(Part(raw, DayKey)), "Invalid day.")
    + Flag(Invalid(Part(raw, MonthKey)), "Invalid month.")
    + Flag(Invalid(Part(raw, YearKey)), "Invalid year.")
  }

  /** `if (!empty($part) && !ctype_digit($part)) $errMsg[] = $msg;` */
  method Collect(errMsg: seq<string>, part: Value, msg: string) returns (r: seq<string>)
    ensures r == errMsg + Flag(Invalid(part), msg)
  {
    r := errMsg;
    if Truthy(part) && !CtypeDigit(part) {
      r := r + [msg];
    }
  }

  /** What a sub-element shows after the raw part is put back, when one was submitted. */
  function Shown(current: Value, submitted: Value): Value
  {
    if submitted != Null then submitted else current
  }

  /**
   * The message of `useCustomErrorMessage`: `#required_error` if set, else the
   * stock one, whose `%field` placeholder renders the escaped title in emphasis.
   */
  function RequiredMessage(title: string, requiredError: Value): string
  {
    if requiredError != Null then ToStr(requiredError) else StockRequiredMessage(title)
  }

  function StockRequiredMessage(title: string): string
  {
    "The " + Placeholder(title) + " date is required."
  }

  /** The stock message names the element: different titles give different messages. */
  lemma StockMessageNamesTitle(a: string, b: string)
    ensures StockRequiredMessage(a) == StockRequiredMessage(b) ==> a == b
  {
    var head, em, close, tail := "The ", "<em class=\"placeholder\">", "</em>", " date is required.";
    Wrapped(head, em, Escape(a), close, tail);
    Wrapped(head, em, Escape(b), close, tail);
    EscapeRoundTrip(a);
    EscapeRoundTrip(b);
  }

  /** The value the callback returns after a `TypeError`: the input with the placeholder date. */
  function WithPlaceholder(input: Value): Value
  {
    if input.Arr? then Arr(Put(input.entries, ObjectKey, PlaceholderDate)) else Arr([(ObjectKey, PlaceholderDate)])
  }

  /** What the parent date list's value callback does: return a value or throw `TypeError`. */
  datatype ParentCall = Returned(value: Value) | ThrewTypeError

  /**
   * The errors the element's validators set on it, in the order `getInfo`
   * lists them: `useCustomErrorMessage`, `validateDatelist` (the parent's,
   * given here as the message it sets, if any) and `areDatePartsNumeric`.
   */
  function ValidatorMessages(title: string, required: Value, requiredError: Value, datelistError: Option<string>, raw: Value): seq<string>
  {
    Flag(Truthy(required), RequiredMessage(title, requiredError))
    + (if datelistError.Some? then [datelistError.value] else [])
    + (var msgs := InvalidMessages(raw); if msgs != [] then [Join(" ", msgs)] else [])
  }

  /**
   * A form element of this type.  `raw` is `#value`, the submitted parts;
   * `day`, `month` and `year` are the `#value` of the three sub-elements.
   */
  class DateElement {
    /** The name `setError` uses: the element's `#parents` joined with `][`. */
    const name: string
    const title: string
    /** `#required`. */
    const required: Value
    /** `#required_error`; Null when it is not set. */
    const requiredError: Value
    var raw: Value
    var day: Value
    var month: Value
    var year: Value

    constructor(name: string, title: string, required: Value, requiredError: Value, raw: Value, day: Value, month: Value, year: Value)
      ensures this.name == name && this.title == title && this.required == required && this.requiredError == requiredError
      ensures this.raw == raw && this.day == day && this.month == month && this.year == year
    {
      this.name := name;
      this.title := title;
      this.required := required;
      this.requiredError := requiredError;
      this.raw := raw;
      this.day := day;
      this.month := month;
      this.year := year;
    }

    /** `restoreUnprocessedDate`: each sub-element shows the raw part, when that part was submitted. */
    method RestoreUnprocessedDate()
      modifies this
      ensures raw == old(raw)
      ensures year == Shown(old(year), Index(raw, YearKey))
      ensures month == Shown(old(month), Index(raw, MonthKey))
      ensures day == Shown(old(day), Index(raw, DayKey))
    {
      if Index(raw, YearKey) != Null {
        year := Index(raw, YearKey);
      }
      if Index(raw, MonthKey) != Null {
        month := Index(raw, MonthKey);
      }
      if Index(raw, DayKey) != Null {
        day := Index(raw, DayKey);
      }
    }

    /**
     * `areDatePartsNumeric`: one error holding the message of every part that
     * is set and not all digits, joined with spaces; on error the raw parts
     * are put back, otherwise the element is unchanged.
     */
    method AreDatePartsNumeric(fs: FormStateErrors)
      requires fs.Valid()
      modifies this, fs
      ensures fs.Valid() && fs.limit == old(fs.limit) && raw == old(raw)
      ensures fs.errors == AddAll(old(fs.errors), fs.limit, Named(name, if InvalidMessages(raw) != [] then [Join(" ", InvalidMessages(raw))] else []))
      ensures InvalidMessages(raw) == [] ==> day == old(day) && month == old(month) && year == old(year)
      ensures InvalidMessages(raw) != [] ==>
        year == Shown(old(year), Index(raw, YearKey)) && month == Shown(old(month), Index(raw, MonthKey)) && day == Shown(old(day), Index(raw, DayKey))
    {
      var d := Coalesce(raw, DayKey, Str(""));
      var m := Coalesce(raw, MonthKey, Str(""));
      var y := Coalesce(raw, YearKey, Str(""));
      var errMsg: seq<string> := [];
      errMsg := Collect(errMsg, d, "Invalid day.");
      errMsg := Collect(errMsg, m, "Invalid month.");
      errMsg := Collect(errMsg, y, "Invalid year.");
      assert d == Part(raw, DayKey) && m == Part(raw, MonthKey) && y == Part(raw, YearKey);
      assert errMsg == InvalidMessages(raw);
      if errMsg != [] {
        fs.SetErrorByName(name, Join(" ", errMsg));
        AddAllOne(old(fs.errors), fs.limit, name, Join(" ", errMsg));
        RestoreUnprocessedDate();
      }
    }

    /**
     * `useCustomErrorMessage`.  Its test of the parts reads a variable the
     * callback never defines, which PHP takes as empty, so only `#required`
     * decides: every required element gets the required message.
     */
    method UseCustomErrorMessage(fs: FormStateErrors)
      requires fs.Valid()
      modifies fs
      ensures fs.Valid() && fs.limit == old(fs.limit)
      ensures fs.errors == AddAll(old(fs.errors), fs.limit, Named(name, Flag(Truthy(required), RequiredMessage(title, requiredError))))
    {
      if Truthy(required) {
        if requiredError != Null {
          fs.SetErrorByName(name, ToStr(requiredError));
        } else {
          fs.SetErrorByName(name, "The " + Placeholder(title) + " date is required.");
        }
        AddAllOne(old(fs.errors), fs.limit, name, RequiredMessage(title, requiredError));
      }
    }

    /**
     * The `#element_validate` callbacks in their order.  The parent's
     * `validateDatelist` is not part of this model: `datelistError` is the
     * error it sets on the element, if any.
     */
    method ElementValidate(fs: FormStateErrors, datelistError: Option<string>)
      requires fs.Valid()
      modifies this, fs
      ensures fs.Valid() && fs.limit == old(fs.limit) && raw == old(raw)
      ensures fs.errors == AddAll(old(fs.errors), fs.limit, Named(name, ValidatorMessages(title, required, requiredError, datelistError, raw)))
    {
      ghost var e0 := fs.errors;
      ghost var custom := Flag(Truthy(required), RequiredMessage(title, requiredError));
      UseCustomErrorMessage(fs);
      ghost var e1 := fs.errors;
      ghost var datelist: seq<string> := [];
      if datelistError.Some? {
        fs.SetErrorByName(name, datelistError.value);
        AddAllOne(e1, fs.limit, name, datelistError.value);
        datelist := [datelistError.value];
      }
      NamedThen(e0, fs.limit, name, custom, datelist);
      AreDatePartsNumeric(fs);
      ghost var numeric := if InvalidMessages(raw) != [] then [Join(" ", InvalidMessages(raw))] else [];
      NamedThen(e0, fs.limit, name, custom + datelist, numeric);
      assert custom + datelist + numeric == ValidatorMessages(title, required, requiredError, datelistError, raw);
    }

    /**
     * `valueCallback`: the parent's value, or, when the parent throws
     * `TypeError`, an error on the element and the input with a placeholder
     * date under `object`.
     */
    method ValueCallback(fs: FormStateErrors, input: Value, parent: ParentCall) returns (r: Value)
      requires fs.Valid()
      modifies fs
      ensures fs.Valid() && fs.limit == old(fs.limit)
      ensures parent.Returned? ==> r == parent.value && fs.errors == old(fs.errors)
      ensures parent.ThrewTypeError? ==> r == WithPlaceholder(input) && fs.errors == Added(old(fs.errors), fs.limit, name, NonNumericError)
    {
      match parent {
        case Returned(v) =>
          r := v;
        case ThrewTypeError =>
          fs.SetErrorByName(name, NonNumericError);
          if input.Arr? {
            r := Arr(Put(input.entries, ObjectKey, PlaceholderDate));
          } else {
            r := Arr([(ObjectKey, PlaceholderDate)]);
          }
      }
    }
  }

  // ---------------------------------------------------------------------
  // Properties

  /** No message at all exactly when every part is empty or all digits. */
  lemma InvalidMessagesEmpty(raw: Value)
    ensures InvalidMessages(raw) == [] <==>
      !Invalid(Part(raw, DayKey)) && !Invalid(Part(raw, MonthKey)) && !Invalid(Part(raw, YearKey))
  {
  }

  /** Each part has its message exactly when it is rejected, and the messages keep the part order. */
  lemma InvalidMessagesParts(raw: Value)
    ensures "Invalid day." in InvalidMessages(raw) <==> Invalid(Part(raw, DayKey))
    ensures "Invalid month." in InvalidMessages(raw) <==> Invalid(Part(raw, MonthKey))
    ensures "Invalid year." in InvalidMessages(raw) <==> Invalid(Part(raw, YearKey))
    ensures |InvalidMessages(raw)| <= 3
    ensures Invalid(Part(raw, DayKey)) ==> InvalidMessages(raw)[0] == "Invalid day."
  {
  }

  /** The returned value holds the placeholder date under `object` and every other input part unchanged. */
  lemma PlaceholderKeepsParts(input: Value, k: Key)
    ensures Index(WithPlaceholder(input), ObjectKey) == PlaceholderDate
    ensures k != ObjectKey ==> Index(WithPlaceholder(input), k) == Index(input, k)
  {
    if input.Arr? {
      PutLookup(input.entries, ObjectKey, PlaceholderDate, k);
      PutLookup(input.entries, ObjectKey, PlaceholderDate, ObjectKey);
    }
  }

  /** `'0'` and a missing part are empty and are never checked. */
  lemma EmptyPartsSkipped(k: Key)
    ensures !Invalid(Part(Arr([(k, Str("0"))]), k))
    ensures !Invalid(Part(Arr([]), k))
  {
  }

  /** A required element always fails, whatever the parts: the required message comes first and stays. */
  lemma RequiredAlwaysFails(e: Errors, limit: Limit, name: string, title: string, required: Value, requiredError: Value, datelistError: Option<string>, raw: Value)
    requires Truthy(required) && Recorded(limit, name) && name !in Names(e)
    ensures AddAll(e, limit, Named(name, ValidatorMessages(title, required, requiredError, datelistError, raw)))
         == e + [(name, RequiredMessage(title, requiredError))]
  {
    FirstErrorWins(e, limit, name, ValidatorMessages(title, required, requiredError, datelistError, raw));
  }

  /** As written: a required element holding the valid date 1/1/2000 still gets the required error. */
  lemma RequiredValidDateFails(e: Errors, limit: Limit, name: string, title: string)
    requires Recorded(limit, name) && name !in Names(e)
    ensures InvalidMessages(Submitted("1", "1", "2000")) == []
    ensures AddAll(e, limit, Named(name, ValidatorMessages(title, Bool(true), Null, None, Submitted("1", "1", "2000"))))
         == e + [(name, StockRequiredMessage(title))]
  {
    SubmittedParts("1", "1", "2000");
    DigitsPass("1");
    DigitsPass("2000");
    RequiredAlwaysFails(e, limit, name, title, Bool(true), Null, None, Submitted("1", "1", "2000"));
  }

  /**
   * The evident intent of `useCustomErrorMessage`: the required error only
   * when the element is required and its submitted day, month and year are
   * all empty.
   */
  predicate MissingRequiredDate(required: Value, raw: Value)
  {
    Truthy(required) && !Truthy(Index(raw, YearKey)) && !Truthy(Index(raw, MonthKey)) && !Truthy(Index(raw, DayKey))
  }

  /** The required messages of the intended check. */
  function IntendedRequiredMessages(title: string, required: Value, requiredError: Value, raw: Value): seq<string>
  {
    Flag(MissingRequiredDate(required, raw), RequiredMessage(title, requiredError))
  }

  /**
   * With the intended check, a required element is rejected as missing
   * exactly when no part was filled in, so a filled-in date such as
   * 1/1/2000 passes, and a missing date never also gets a digits message.
   */
  lemma IntendedRequiredOnlyWhenEmpty(title: string, required: Value, requiredError: Value, raw: Value)
    ensures IntendedRequiredMessages(title, required, requiredError, raw) != [] <==>
      Truthy(required) && !Truthy(Part(raw, DayKey)) && !Truthy(Part(raw, MonthKey)) && !Truthy(Part(raw, YearKey))
    ensures IntendedRequiredMessages(title, required, requiredError, raw) != [] ==> InvalidMessages(raw) == []
    ensures IntendedRequiredMessages(title, required, requiredError, Submitted("1", "1", "2000")) == []
  {
    SubmittedParts("1", "1", "2000");
  }

  /** An optional element keeps the first of the parent's error and the part messages. */
  lemma OptionalFirstError(e: Errors, limit: Limit, name: string, title: string, required: Value, requiredError: Value, datelistError: Option<string>, raw: Value)
    requires !Truthy(required) && Recorded(limit, name) && name !in Names(e)
    ensures datelistError.Some? ==>
      AddAll(e, limit, Named(name, ValidatorMessages(title, required, requiredError, datelistError, raw))) == e + [(name, datelistError.value)]
    ensures datelistError.None? && InvalidMessages(raw) != [] ==>
      AddAll(e, limit, Named(name, ValidatorMessages(title, required, requiredError, datelistError, raw))) == e + [(name, Join(" ", InvalidMessages(raw)))]
    ensures datelistError.None? && InvalidMessages(raw) == [] ==>
      AddAll(e, limit, Named(name, ValidatorMessages(title, required, requiredError, datelistError, raw))) == e
  {
    FirstErrorWins(e, limit, name, ValidatorMessages(title, required, requiredError, datelistError, raw));
  }

  /** The parts of a submitted day, month and year. */
  function Submitted(d: string, m: string, y: string): Value
  {
    Arr([(DayKey, Str(d)), (MonthKey, Str(m)), (YearKey, Str(y))])
  }

  lemma SubmittedParts(d: string, m: string, y: string)
    ensures Part(Submitted(d, m, y), DayKey) == Str(d)
    ensures Part(Submitted(d, m, y), MonthKey) == Str(m)
    ensures Part(Submitted(d, m, y), YearKey) == Str(y)
  {
    var e := Submitted(d, m, y).entries;
    assert e[1..] == [(MonthKey, Str(m)), (YearKey, Str(y))];
    assert e[1..][1..] == [(YearKey, Str(y))];
    assert "day" != "month" && "day" != "year" && "month" != "year";
    assert Lookup(e, MonthKey) == Lookup(e[1..], MonthKey) == Some(Str(m));
    assert Lookup(e, YearKey) == Lookup(e[1..], YearKey) == Lookup(e[1..][1..], YearKey) == Some(Str(y));
  }

  /** A non-empty string of digits passes. */
  lemma DigitsPass(s: string)
    requires |s| > 0 && AllDigits(s)
    ensures !Invalid(Str(s))
  {
  }

  /** A string with a character that is not a digit fails, unless it is empty or `'0'`. */
  lemma NonDigitFails(s: string, i: int)
    requires 0 <= i < |s| && !IsDigit(s[i])
    ensures Invalid(Str(s))
  {
  }

  /** The date `1/1/1` passes. */
  lemma KernelPass()
    ensures InvalidMessages(Submitted("1", "1", "1")) == []
  {
    SubmittedParts("1", "1", "1");
    DigitsPass("1");
  }

  /** `1D` or `DD` as the day fails. */
  lemma KernelInvalidDay()
    ensures InvalidMessages(Arr([(DayKey, Str("1D"))])) == ["Invalid day."]
    ensures InvalidMessages(Submitted("DD", "1", "2022")) == ["Invalid day."]
  {
    NonDigitFails("1D", 1);
    NonDigitFails("DD", 0);
    DigitsPass("1");
    DigitsPass("2022");
    assert "day" != "month" && "day" != "year";
    assert Part(Arr([(DayKey, Str("1D"))]), DayKey) == Str("1D");
    assert Part(Arr([(DayKey, Str("1D"))]), MonthKey) == Str("");
    assert Part(Arr([(DayKey, Str("1D"))]), YearKey) == Str("");
    SubmittedParts("DD", "1", "2022");
  }

  /** `Last year` as the year fails. */
  lemma KernelInvalidYear()
    ensures InvalidMessages(Submitted("1", "1", "Last year")) == ["Invalid year."]
  {
    NonDigitFails("Last year", 0);
    DigitsPass("1");
    SubmittedParts("1", "1", "Last year");
  }

  /** Two bad parts give one error with both messages. */
  lemma TwoMessages()
    ensures InvalidMessages(Submitted("x", "", "y")) == ["Invalid day.", "Invalid year."]
  {
    NonDigitFails("x", 0);
    NonDigitFails("y", 0);
    SubmittedParts("x", "", "y");
    assert InvalidMessages(Submitted("x", "", "y")) == ["Invalid day."] + [] + ["Invalid year."];
  }

  lemma TwoMessagesJoined()
    ensures Join(" ", InvalidMessages(Submitted("x", "", "y"))) == "Invalid day." + " " + "Invalid year."
  {
    TwoMessages();
    JoinCons(" ", "Invalid day.", ["Invalid year."]);
  }
}

/**
 * The date constraint `LocalgovFormsDateValidateConstraint`: it reads the
 * date parts from the form state values under the element's webform key and
 * checks them with `is_numeric`, which is looser than the digits test of the
 * element's own validator.
 */
module LocalgovFormsDateValidateConstraint {
  import opened Php
  import opened FormState
  import LocalgovFormsDate

  /** A part the constraint rejects: not PHP-empty and not numeric. */
  predicate NotANumber(part: Value)
  {
    Truthy(part) && !IsNumeric(part)
  }

  /** The constraint's message; `t("day")` is already markup, so `%field` only puts it in emphasis. */
  function Message(field: string): string
  {
    "The " + Emphasis(field) + " field must be a number."
  }

  /** The messages of the three checks that fail, day first, then month, then year. */
  function NumberMessages(parts: Value): seq<string>
  {
    LocalgovFormsDate.Flag(NotANumber(Index(parts, LocalgovFormsDate.DayKey)), Message("day"))
    + LocalgovFormsDate.Flag(NotANumber(Index(parts, LocalgovFormsDate.MonthKey)), Message("month"))
    + LocalgovFormsDate.Flag(NotANumber(Index(parts, LocalgovFormsDate.YearKey)), Message("year"))
  }

  /** `$form_state->getValue($webformKey)`. */
  function DateParts(values: Entries, webformKey: string): Value
  {
    Index(Arr(values), KeyOf(webformKey))
  }

  /** One check of `validate`: the error for `field` when `part` is set and not numeric. */
  method CheckPart(fs: FormStateErrors, name: string, part: Value, field: string)
    requires fs.Valid()
    modifies fs
    ensures fs.Valid() && fs.limit == old(fs.limit)
    ensures fs.errors == AddAll(old(fs.errors), fs.limit, Named(name, LocalgovFormsDate.Flag(NotANumber(part), Message(field))))
  {
    if Truthy(part) && !IsNumeric(part) {
      fs.SetErrorByName(name, Message(field));
      AddAllOne(old(fs.errors), fs.limit, name, Message(field));
    }
  }

  /** `validate`: each failing check sets its error on the element, day first, then month, then year. */
  method Validate(fs: FormStateErrors, name: string, webformKey: string, values: Entries)
    requires fs.Valid()
    modifies fs
    ensures fs.Valid() && fs.limit == old(fs.limit)
    ensures fs.errors == AddAll(old(fs.errors), fs.limit, Named(name, NumberMessages(DateParts(values, webformKey))))
  {
    var dateParts := Index(Arr(values), KeyOf(webformKey));
    var d := Index(dateParts, LocalgovFormsDate.DayKey);
    var m := Index(dateParts, LocalgovFormsDate.MonthKey);
    var y := Index(dateParts, LocalgovFormsDate.YearKey);
    ghost var dayMsgs := LocalgovFormsDate.Flag(NotANumber(d), Message("day"));
    ghost var monthMsgs := LocalgovFormsDate.Flag(NotANumber(m), Message("month"));
    CheckPart(fs, name, d, "day");
    CheckPart(fs, name, m, "month");
    NamedThen(old(fs.errors), fs.limit, name, dayMsgs, monthMsgs);
    CheckPart(fs, name, y, "year");
    NamedThen(old(fs.errors), fs.limit, name, dayMsgs + monthMsgs, LocalgovFormsDate.Flag(NotANumber(y), Message("year")));
  }

  /** Only the first failing part's message is recorded. */
  lemma OnlyFirstRecorded(e: Errors, limit: Limit, name: string, parts: Value)
    requires Recorded(limit, name) && name !in Names(e)
    ensures NotANumber(Index(parts, LocalgovFormsDate.DayKey)) ==>
      AddAll(e, limit, Named(name, NumberMessages(parts))) == e + [(name, Message("day"))]
    ensures !NotANumber(Index(parts, LocalgovFormsDate.DayKey)) && NotANumber(Index(parts, LocalgovFormsDate.MonthKey)) ==>
      AddAll(e, limit, Named(name, NumberMessages(parts))) == e + [(name, Message("month"))]
    ensures NumberMessages(parts) == [] ==> AddAll(e, limit, Named(name, NumberMessages(parts))) == e
  {
    FirstErrorWins(e, limit, name, NumberMessages(parts));
  }

  /** A part the element's digits test accepts passes this check too. */
  lemma DigitsPassConstraint(part: Value)
    requires !LocalgovFormsDate.Invalid(part)
    ensures !NotANumber(part)
  {
    if Truthy(part) {
      CtypeDigitIsNumeric(part);
    }
  }

  lemma DecimalIsNumeric()
    ensures IsNumericString("1.5")
  {
    var s := "1.5";
    assert SkipWhile(s, 0, true) == 0;
    assert SkipWhile(s, 0, false) == 1;
    assert SkipWhile(s, 2, false) == 3;
    assert ExponentEnd(s, 3) == 3 && SkipWhile(s, 3, true) == 3;
  }

  lemma NegativeIsNumeric()
    ensures IsNumericString("-3")
  {
    var s := "-3";
    assert SkipWhile(s, 0, true) == 0;
    assert SkipWhile(s, 1, false) == 2;
    assert ExponentEnd(s, 2) == 2 && SkipWhile(s, 2, true) == 2;
  }

  lemma ExponentIsNumeric()
    ensures IsNumericString("1e2")
  {
    var s := "1e2";
    assert SkipWhile(s, 0, true) == 0;
    assert SkipWhile(s, 0, false) == 1;
    assert SkipWhile(s, 2, false) == 3;
    assert ExponentEnd(s, 1) == 3 && SkipWhile(s, 3, true) == 3;
  }

  /** `1.5`, `-3` and `1e2` pass this check but fail the element's digits test. */
  lemma LooserThanDigits()
    ensures !NotANumber(Str("1.5")) && LocalgovFormsDate.Invalid(Str("1.5"))
    ensures !NotANumber(Str("-3")) && LocalgovFormsDate.Invalid(Str("-3"))
    ensures !NotANumber(Str("1e2")) && LocalgovFormsDate.Invalid(Str("1e2"))
  {
    DecimalIsNumeric();
    NegativeIsNumeric();
    ExponentIsNumeric();
    LocalgovFormsDate.NonDigitFails("1.5", 1);
    LocalgovFormsDate.NonDigitFails("-3", 0);
    LocalgovFormsDate.NonDigitFails("1e2", 1);
  }
}
