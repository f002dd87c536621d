# LocalGov Forms in Dafny

A verified model of the decision logic of LocalGov Forms, the Drupal module
that adds UK address lookup, date elements and long-term storage of webform
submissions to LocalGov Drupal sites. It covers:

- the long-term-storage pipeline:
  - the text scrubber that redacts postcodes, email addresses and numbers;
  - the element classifier and redactor with its audit notes;
  - the watermark-driven copier;
  - the batch deploy hook that drives it;
- the Liberty Create file-token expansion;
- the Brighton and Hove address lookup service;
- the Ordnance Survey Places geocoder, its address record, and the geocoder plugin selection;
- the composite date elements (the BHCC date and the LocalGov forms date) with their plugins and validators;
- the address lookup element and its static result cache;
- the two UK address composites, whose validation filters form errors;
- the UK address webform element plugins: defaults, text formatting, and clean-up before save;
- the visibility walk through parent containers.

PHP values are modelled by `Php.Value`:
- arrays are ordered lists of key/value entries;
- integer-like string keys become integer keys, as PHP does;
- `Truthy` is PHP's truth test;
- loose `==` against a string literal is `LooseEqualsLiteral`.

Regular expressions are modelled as follows:
- a pattern is a sequence of quantified character classes;
- the `Regex` module matches it with PCRE's leftmost, greedy, backtracking strategy;
- that matcher is proved sound and complete against a declarative reading, and to pick the greediest fit.

Form-state errors are an ordered name→message list with PHP's `setErrorByName` rules (the first error for a name wins, and `limit_validation_errors` filters), held in the `FormState.FormStateErrors` class.

Mutable objects are classes whose methods are proved against specification functions:
- the submission, the copier, the lookup service, the date element and the form state;
- each such method's `ensures` ties the new state to a function of the old state;
- the lemmas beside it prove what the code promises about that function.

These are parameters of the model, not modelled code:
- foreign services: entity storage, the conditions validator, `strtotime`, the clock, HTTP and JSON decoding;
- messages produced by framework code (`setRequiredError`, the parent composite validation).

Strings are PHP byte strings: one `char` per byte.

Where the code, its comments and its tests disagree, the model follows the code:
- The redactor's class comment and its unit test expect `gender` and `ethnicity` to be redacted. The machine-id pattern matches neither; the model follows the pattern, and `PiiRedactor.SampleFormElemsToRedact` proves the classification the code produces for the test's form.
- `findCopyTargets` is documented with an offset it does not have.
- The text scrubber is not idempotent (`PiiRedactorForText.RedactIsNotIdempotent`).
- `sort('changed')` leaves the order of submissions changed in the same second to the database; the model breaks such ties by storage order. Whichever the database picks, a capped batch that ends inside a tie leaves the rest of the tie behind (`LtsCopy.LeftOutTieNeverSelected`).

## Model

| member | source | states |
|---|---|---|
| Regex.MatchSound | modules/localgov_forms_lts/src/PIIRedactorForText.php:76 | every match the backtracking matcher reports is a valid choice of repetition counts for the pattern |
| Regex.MatchComplete | modules/localgov_forms_lts/src/PIIRedactorForText.php:76 | whenever some choice of counts fits, the matcher finds a match, and it is the greatest in PCRE's greedy preference order |
| Regex.MatchesIff | src/Geocoder/Provider/LocalgovOsPlacesGeocoder.php:113-117 | an anchored `preg_match` succeeds exactly when some choice of counts fits the whole subject |
| Regex.FitsLength | modules/localgov_forms_lts/src/PIIRedactorForText.php:76 | every match is at least the pattern's minimum length and lies within the subject |
| Regex.ReplaceAllNone | modules/localgov_forms_lts/src/PIIRedactorForText.php:43 | `preg_replace` counts no replacement exactly when no match starts anywhere, and then returns the subject unchanged |
| Regex.ReplaceAllShort | modules/localgov_forms_lts/src/PIIRedactorForText.php:43 | a subject shorter than any match comes back unchanged with count 0 |
| Regex.ReplaceAllMissingClass | modules/localgov_forms_lts/src/PIIRedactorForText.php:43 | when no character of the subject is in the class of a mandatory item, nothing is replaced |
| PiiRedactorForText.NumberMatchIsRun | modules/localgov_forms_lts/src/PIIRedactorForText.php:66 | `\d+` matches at a position exactly when it holds a digit, and then takes the whole maximal digit run |
| PiiRedactorForText.RedactNumbersIsRunReplacement | modules/localgov_forms_lts/src/PIIRedactorForText.php:63-68 | the number pass replaces each maximal digit run by `REDACTED_NUMBER` and counts one per run |
| PiiRedactorForText.DigitRunCountPositive | modules/localgov_forms_lts/src/PIIRedactorForText.php:63-68 | the number pass counts a replacement exactly when the text holds a digit |
| PiiRedactorForText.RedactLeavesNoDigit | modules/localgov_forms_lts/src/PIIRedactorForText.php:25-34 | the output of `redact` holds no ASCII digit |
| PiiRedactorForText.RedactZeroCountUnchanged | modules/localgov_forms_lts/src/PIIRedactorForText.php:25-34 | a total count of 0 means the text comes back unchanged |
| PiiRedactorForText.NoDigitNoPostcode | modules/localgov_forms_lts/src/PIIRedactorForText.php:39-46 | a text without digits has no postcode: unchanged, count 0 |
| PiiRedactorForText.NoAtNoEmail | modules/localgov_forms_lts/src/PIIRedactorForText.php:51-58 | a text without `@` has no email address: unchanged, count 0 |
| PiiRedactorForText.NoDigitNoNumber | modules/localgov_forms_lts/src/PIIRedactorForText.php:63-68 | a text without digits is unchanged by the number pass, count 0 |
| PiiRedactorForText.PatternLengths | modules/localgov_forms_lts/src/PIIRedactorForText.php:76-86 | both the postcode and the email pattern need at least 5 characters |
| PiiRedactorForText.ShortTexts | modules/localgov_forms_lts/src/PIIRedactorForText.php:39-58 | a text of fewer than 5 characters passes the postcode and email passes unchanged |
| PiiRedactorForText.EmailMatchesAll | modules/localgov_forms_lts/src/PIIRedactorForText.php:86 | with its unescaped middle `.`, the email pattern matches all of `a@REDACTED_NUMBER` |
| PiiRedactorForText.EmailsOfLabelAfterAt | modules/localgov_forms_lts/src/PIIRedactorForText.php:51-58 | the email pass turns `a@REDACTED_NUMBER` into `REDACTED_EMAIL` with count 1 |
| PiiRedactorForText.RedactIsNotIdempotent | modules/localgov_forms_lts/src/PIIRedactorForText.php:25-34 | `a@1` redacts to `a@REDACTED_NUMBER` (count 1), and redacting that again gives `REDACTED_EMAIL` (count 1) |
| Regex.ReplaceAllKeep | modules/localgov_forms_lts/src/PIIRedactorForText.php:43 | when no match starts inside a prefix, `preg_replace` keeps the prefix as it is and carries on with the rest, whose count it returns |
| Regex.ReplaceAllHit | modules/localgov_forms_lts/src/PIIRedactorForText.php:43 | when the leftmost match at the start is exactly a prefix, `preg_replace` puts the replacement for it, carries on with the rest, and counts one more |
| Regex.MatchAtStart | modules/localgov_forms_lts/src/PIIRedactorForText.php:66 | a match can start only on a character of its first mandatory item's class |
| PiiRedactorForTextExamples.PostcodeStart | modules/localgov_forms_lts/src/PIIRedactorForText.php:76 | a postcode match starts with a letter followed by a digit, or by a letter and then a digit |
| PiiRedactorForTextExamples.PostcodeKeeps | modules/localgov_forms_lts/src/PIIRedactorForText.php:39-46 | a piece with no letter, or with no digit and not ending in a letter, passes the postcode pass unchanged, and the rest is redacted on its own |
| PiiRedactorForTextExamples.EmailStart | modules/localgov_forms_lts/src/PIIRedactorForText.php:86 | an email match starts with a run of local-part characters ended by `@` |
| PiiRedactorForTextExamples.EmailKeeps | modules/localgov_forms_lts/src/PIIRedactorForText.php:51-58 | a piece with no `@` that does not end in a local-part character passes the email pass unchanged, and the rest is redacted on its own |
| PiiRedactorForTextExamples.NumberKeeps | modules/localgov_forms_lts/src/PIIRedactorForText.php:63-68 | a piece with no digit passes the number pass unchanged, and the rest is redacted on its own |
| PiiRedactorForTextExamples.PostcodeHit | modules/localgov_forms_lts/src/PIIRedactorForText.php:39-46 | `CR8 2XX` is matched whole whatever follows: it becomes `REDACTED_POSTCODE` and counts one |
| PiiRedactorForTextExamples.EmailHit | modules/localgov_forms_lts/src/PIIRedactorForText.php:51-58 | a local part, `@`, a domain, a separator other than a newline, and a tail not followed by a tail character is matched whole: it becomes `REDACTED_EMAIL` and counts one |
| PiiRedactorForTextExamples.NumberHit | modules/localgov_forms_lts/src/PIIRedactorForText.php:63-68 | a digit run followed by a non-digit becomes `REDACTED_NUMBER` and counts one |
| PiiRedactorForTextExamples.SamplePostcodes | modules/localgov_forms_lts/src/PIIRedactorForText.php:27 | on the test's first text the postcode pass replaces `CR8 2XX` only, with count 1 |
| PiiRedactorForTextExamples.SampleEmails | modules/localgov_forms_lts/src/PIIRedactorForText.php:28 | the email pass then replaces both addresses, each with its trailing `.`, with count 2 |
| PiiRedactorForTextExamples.SampleNumbers | modules/localgov_forms_lts/src/PIIRedactorForText.php:29 | the number pass then replaces `7`, `2001`, `01`, `01` and `5`, with count 5 |
| PiiRedactorForTextExamples.RedactSampleText | modules/localgov_forms_lts/tests/src/Unit/PIIRedactorForTextTest.php:22-25 | the test's first text gets 8 replacements in all: two email addresses, one postcode and five numbers, each replaced by its label in place |
| PiiRedactorForTextExamples.RedactPlainText | modules/localgov_forms_lts/tests/src/Unit/PIIRedactorForTextTest.php:27-30 | the test's sentence about `preg_replace()` gets 0 replacements and comes back unchanged |
| PiiRedactor.ListElemsAndTypes | modules/localgov_forms_lts/src/PIIRedactor.php:91-95 | one entry per element, in form order, keyed by the element id |
| PiiRedactor.ListElemsAndTypesValues | modules/localgov_forms_lts/src/PIIRedactor.php:91-95 | each entry holds the element definition's `#type` |
| PiiRedactor.IdsOfTypeMembers | modules/localgov_forms_lts/src/PIIRedactor.php:73-74 | `array_keys(array_intersect(...))` holds exactly the ids whose type is in the table |
| PiiRedactor.GrepGuessedMembers | modules/localgov_forms_lts/src/PIIRedactor.php:77 | `preg_grep` keeps exactly the ids the machine-id pattern matches |
| PiiRedactor.FindElemsToRedactMembers | modules/localgov_forms_lts/src/PIIRedactor.php:70-86 | an id is fully redacted iff its type is a certain-PII type, or a potential-PII type with a matching id; partly redacted iff it is a textarea |
| PiiRedactor.FindElemsToRedactDistinct | modules/localgov_forms_lts/src/PIIRedactor.php:70-86 | with distinct element ids, neither list repeats an id and no id is in both |
| PiiRedactor.TablesDisjoint | modules/localgov_forms_lts/src/PIIRedactor.php:118-147 | the three type tables share no type |
| PiiRedactor.NoMarkerNotGuessed | modules/localgov_forms_lts/src/PIIRedactor.php:154 | an id with none of `_`, `a`, `o`, `l` in either case never matches the machine-id pattern |
| PiiRedactor.PrefixGuessed | modules/localgov_forms_lts/src/PIIRedactor.php:154 | a lower-case id starting with one of the pattern's alternatives matches it |
| PiiRedactor.SampleFormElemsToRedact | modules/localgov_forms_lts/tests/src/Unit/PIIRedactorTest.php:43-53 | on the unit test's form, `full` is email, work_number, location, cars, name, nino, date_of_birth and `part` is message: gender and ethnicity are not matched |
| PiiRedactor.ReportedIds | modules/localgov_forms_lts/src/PIIRedactor.php:53-54 | `array_filter` keeps exactly the truthy per-element results |
| PiiRedactor.Submission.SetElementData | modules/localgov_forms_lts/src/PIIRedactor.php:36 | storing a value puts it under the element's key |
| PiiRedactor.AddRedactionNote | modules/localgov_forms_lts/src/PIIRedactor.php:102-113 | the notes become the existing notes, a newline and the note, or only the note when there were none; nothing changes for an empty list |
| PiiRedactor.NoteAfterKeepsIds | modules/localgov_forms_lts/src/PIIRedactor.php:102-113 | the old notes stay a prefix, the note starts with the prefix and ends with `.`, and the ids read back from it when none holds a comma |
| PiiRedactor.RedactFully | modules/localgov_forms_lts/src/PIIRedactor.php:34-40 | the first `array_map` is the `FullPass` specification: each listed element with a truthy value is set to NULL and reported |
| PiiRedactor.RedactPartly | modules/localgov_forms_lts/src/PIIRedactor.php:42-51 | the second `array_map` is the `PartPass` specification, stopping at the type error a non-string truthy value raises |
| PiiRedactor.Redact | modules/localgov_forms_lts/src/PIIRedactor.php:30-60 | the submission after `redact`, and its return value, are `RedactionOf` the old data and notes |
| PiiRedactor.FullPassEffect | modules/localgov_forms_lts/src/PIIRedactor.php:34-40 | after the full pass every listed element is falsy, exactly the listed elements that held a truthy value are reported, and every other element is untouched |
| PiiRedactor.PartPassEffect | modules/localgov_forms_lts/src/PIIRedactor.php:42-51 | each textarea holds its scrubbed text when the scrubber counted something, and its old value otherwise; exactly those are reported; other elements are untouched |
| PiiRedactor.PartPassFails | modules/localgov_forms_lts/src/PIIRedactor.php:43-44 | the partial pass stops exactly when a listed element holds a truthy value that is not a string |
| PiiRedactor.PartPassStopped | modules/localgov_forms_lts/src/PIIRedactor.php:42-51 | once the partial pass has stopped, later elements change nothing |
| PiiRedactor.PartlyRedactedHasNoDigit | modules/localgov_forms_lts/src/PIIRedactor.php:42-51 | a textarea's string value after the partial pass is falsy or free of digits |
| PiiRedactor.RedactionEffect | modules/localgov_forms_lts/src/PIIRedactor.php:30-60 | over a whole submission: fully redacted elements end up falsy, textareas hold their scrubbed text, and all other elements keep their values |
| PiiRedactor.NothingToRedact | modules/localgov_forms_lts/src/PIIRedactor.php:30-60 | a form with nothing to redact leaves data and notes unchanged and returns no ids |
| LtsCopy.Eligible | modules/localgov_forms_lts/src/LtsCopy.php:108-109 | the query's conditions keep exactly the stored submissions changed after the watermark and not in draft |
| LtsCopy.SortByChanged | modules/localgov_forms_lts/src/LtsCopy.php:110 | `sort('changed')` yields a permutation of its input ordered by change time |
| LtsCopy.Load | modules/localgov_forms_lts/src/LtsCopy.php:53 | loading by id returns a stored submission with that id, or nothing exactly when none has it |
| LtsCopy.Prepare | modules/localgov_forms_lts/src/LtsCopy.php:53-54 | one loaded and redacted copy per target, in target order |
| LtsCopy.TargetRowsQualify | modules/localgov_forms_lts/src/LtsCopy.php:102-119 | every copy target is a stored, non-draft submission changed after the watermark |
| LtsCopy.TargetRowsSorted | modules/localgov_forms_lts/src/LtsCopy.php:110 | the targets come in order of change time |
| LtsCopy.TargetRowsCount | modules/localgov_forms_lts/src/LtsCopy.php:112-114 | a count above -1 limits the targets to that many; -1 or below returns every eligible submission |
| LtsCopy.TargetRowsLeftOut | modules/localgov_forms_lts/src/LtsCopy.php:102-119 | an eligible submission is left out only when the batch is full, and then it changed no earlier than the last target |
| LtsCopy.TargetRowsUnique | modules/localgov_forms_lts/src/LtsCopy.php:102-119 | the targets repeat no submission id |
| LtsCopy.TargetRowsLast | modules/localgov_forms_lts/src/LtsCopy.php:102-119 | the last target changed after the watermark and no earlier than any other target |
| LtsCopy.TargetRowsAll | modules/localgov_forms_lts/src/LtsCopy.php:102-119 | sorted, all-eligible storage within the batch size comes back whole and in order |
| LtsCopy.Copier.constructor | modules/localgov_forms_lts/src/LtsCopy.php:145-151 | the copier starts on the given storage, rejections, LTS contents and watermark, with no resaves |
| LtsCopy.Copier.FindLastCopiedSubId | modules/localgov_forms_lts/src/LtsCopy.php:83-91 | the largest submission id in the LTS database, or 0 when it is empty |
| LtsCopy.MaxSidIs | modules/localgov_forms_lts/src/LtsCopy.php:83-91 | any value that is 0 on an empty set, a member otherwise, and bounds every id is the maximum |
| LtsCopy.Copier.FindLatestUpdateTimestamp | modules/localgov_forms_lts/src/LtsCopy.php:124-128 | the stored watermark, or 0 when none was stored |
| LtsCopy.Copier.FindCopyTargets | modules/localgov_forms_lts/src/LtsCopy.php:102-119 | the ids of the target rows for the stored watermark |
| LtsCopy.Copier.CopySub | modules/localgov_forms_lts/src/LtsCopy.php:51-78 | the LTS database and the resave log change as `CopySubOf` says: an unloadable submission aborts, a rejected resave leaves the store and returns FALSE, an update of an id the LTS lacks stores nothing and returns TRUE |
| LtsCopy.Copier.SetLatestUpdateTimestamp | modules/localgov_forms_lts/src/LtsCopy.php:133-138 | the watermark becomes the change time of the last copied submission when it loads, and is otherwise unchanged |
| LtsCopy.Copier.CopyEach | modules/localgov_forms_lts/src/LtsCopy.php:35-40 | the loop over the targets is the `CopyRun` specification |
| LtsCopy.Copier.Copy | modules/localgov_forms_lts/src/LtsCopy.php:28-46 | the copier's new state and result are `CopyOf` its old state |
| LtsCopy.CopyRunSnoc | modules/localgov_forms_lts/src/LtsCopy.php:35-40 | one more loop iteration either aborts on an unloadable target or writes it and appends its result |
| LtsCopy.CopyRunStopped | modules/localgov_forms_lts/src/LtsCopy.php:35-40 | once a copy aborts, later targets change nothing |
| LtsCopy.CopyRunResults | modules/localgov_forms_lts/src/LtsCopy.php:35-40 | a full run gives one result per target, TRUE unless the store rejects it, and resaves each target once, as new exactly when its id is above the last copied id |
| LtsCopy.CopyRunAborts | modules/localgov_forms_lts/src/LtsCopy.php:35-40 | the run aborts iff some target does not load, and then at the first such target |
| LtsCopy.CopyRunStore | modules/localgov_forms_lts/src/LtsCopy.php:51-78 | after a full run each accepted target that is new or already stored holds its redacted copy, and every other LTS entry is untouched |
| LtsCopy.UpdateOfMissingIdStoresNothing | modules/localgov_forms_lts/src/LtsCopy.php:60-65 | a resave without `enforceIsNew` of an id the LTS lacks succeeds and stores nothing |
| LtsCopy.LoadStored | modules/localgov_forms_lts/src/LtsCopy.php:53 | with unique ids, loading a stored submission's id returns it |
| LtsCopy.PreparedUnchanged | modules/localgov_forms_lts/src/LtsCopy.php:53-54 | a stored submission with no elements is copied as it is |
| LtsCopy.CopyOfShape | modules/localgov_forms_lts/src/LtsCopy.php:28-46 | `copy` aborts with the failing id, completes with no results on no targets, or completes with the results and the last target's change time as watermark |
| LtsCopy.CopyCompletes | modules/localgov_forms_lts/src/LtsCopy.php:28-46 | `copy` completes iff every target loads; an abort leaves the watermark and names a target |
| LtsCopy.CopyResults | modules/localgov_forms_lts/src/LtsCopy.php:28-46 | a completed copy returns one result per target and resaves each target once, in target order |
| LtsCopy.CopyWatermark | modules/localgov_forms_lts/src/LtsCopy.php:41-43 | a completed copy moves the watermark to the last target's change time, or leaves it when nothing was copied |
| LtsCopy.CopyAdvancesWatermark | modules/localgov_forms_lts/src/LtsCopy.php:41-43 | a completed copy of at least one submission moves the watermark strictly forward, past every copied submission |
| LtsCopy.LeftOutTieNeverSelected | modules/localgov_forms_lts/src/LtsCopy.php:102-119 | an eligible submission left out of a full batch with the last target's change time is not eligible under the new watermark, whatever the next batch's size |
| LtsCopy.TieLeftBehind | modules/localgov_forms_lts/src/LtsCopy.php:102-119 | two submissions changed at the same moment with a batch of one: with the tie broken by storage order the first is copied, and the second is not eligible under the new watermark, so it is not copied until it changes again |
| LtsCopy.DeployCopyWebformSubs | modules/localgov_forms_lts/localgov_forms_lts.deploy.php:20-37 | without the LTS database the hook returns its message and changes nothing; otherwise it runs one `copy` with the batch limit and sets `#finished` from the result count |
| LtsCopy.DeployBatches | modules/localgov_forms_lts/localgov_forms_lts.deploy.php:29 | an unfinished batch copied a full batch and moved the watermark forward; a finished batch took every eligible submission |
| LtsCopy.UnitTestTargets | modules/localgov_forms_lts/tests/src/Unit/LtsCopyTest.php:47-72 | the unit test's three submissions are all targets, in storage order |
| LtsCopy.LtsCopyUnitTest | modules/localgov_forms_lts/tests/src/Unit/LtsCopyTest.php:33-40 | on the unit test's storage the copy completes with three TRUE results, resaves 100 and 101 as new and 99 as existing, and stores watermark 3 |
| PrepareFileTokens.WordRun | modules/localgov_forms_example_liberty_create_integration/src/PrepareFileTokens.php:141 | `\w+` takes the longest run of word characters |
| PrepareFileTokens.MatchTokenSound | modules/localgov_forms_example_liberty_create_integration/src/PrepareFileTokens.php:141 | a pseudo-token match really is the quoted pseudo-token of the captured id at that position |
| PrepareFileTokens.MatchTokenComplete | modules/localgov_forms_example_liberty_create_integration/src/PrepareFileTokens.php:141 | the quoted pseudo-token of any element id, followed by anything, is matched with that id |
| PrepareFileTokens.TokenAtSound | modules/localgov_forms_example_liberty_create_integration/src/PrepareFileTokens.php:141 | a match at a position is the pseudo-token of a well-formed id |
| PrepareFileTokens.TokenAtComplete | modules/localgov_forms_example_liberty_create_integration/src/PrepareFileTokens.php:141 | every well-formed id's pseudo-token is matched at its position |
| PrepareFileTokens.FileElementIds | modules/localgov_forms_example_liberty_create_integration/src/PrepareFileTokens.php:138-148 | every captured id is a well-formed element id |
| PrepareFileTokens.DetermineAllNone | modules/localgov_forms_example_liberty_create_integration/src/PrepareFileTokens.php:138-148 | `determineAllFileElementId` returns NULL exactly when the text holds no pseudo-token |
| PrepareFileTokens.NoPseudoTokenIff | modules/localgov_forms_example_liberty_create_integration/src/PrepareFileTokens.php:138-148 | holding no pseudo-token means no pseudo-token of any well-formed id occurs |
| PrepareFileTokens.DetermineAllSound | modules/localgov_forms_example_liberty_create_integration/src/PrepareFileTokens.php:138-148 | every returned id has its pseudo-token in the text |
| PrepareFileTokens.DetermineAllFirst | modules/localgov_forms_example_liberty_create_integration/src/PrepareFileTokens.php:138-148 | a text starting with a pseudo-token returns its id first, then the ids of the rest |
| PrepareFileTokens.EscapeRoundTrip | modules/localgov_forms_example_liberty_create_integration/src/PrepareFileTokens.php:107 | doubling single quotes is undone by reading the YAML single-quoted scalar back |
| PrepareFileTokens.InlineEntriesAt | modules/localgov_forms_example_liberty_create_integration/src/PrepareFileTokens.php:106-109 | entry `i` names file `i` of the element and carries the escaped label |
| PrepareFileTokens.PrepareInlineTokens | modules/localgov_forms_example_liberty_create_integration/src/PrepareFileTokens.php:102-113 | the loop and `implode(', ')` produce the `InlineTokens` specification |
| PrepareFileTokens.InlineTokensNone | modules/localgov_forms_example_liberty_create_integration/src/PrepareFileTokens.php:102-113 | a file count of 0 or less gives the empty string |
| PrepareFileTokens.InlineTokensOne | modules/localgov_forms_example_liberty_create_integration/src/PrepareFileTokens.php:102-113 | one file gives exactly one flow mapping and no separator |
| PrepareFileTokens.CountUploadedFiles | modules/localgov_forms_example_liberty_create_integration/src/PrepareFileTokens.php:120-126 | falsy data counts 0, an array its entry count; a truthy scalar makes `count()` throw |
| PrepareFileTokens.ExpandPseudoTokenPieces | modules/localgov_forms_example_liberty_create_integration/src/PrepareFileTokens.php:68-77 | only the pseudo-token changes: the text between its occurrences is kept and joined by the inline mappings |
| PrepareFileTokens.ExpandPseudoTokenAbsent | modules/localgov_forms_example_liberty_create_integration/src/PrepareFileTokens.php:68-77 | a text without the pseudo-token is returned as it is |
| PrepareFileTokens.ExpandWithoutFiles | modules/localgov_forms_example_liberty_create_integration/src/PrepareFileTokens.php:68-77 | an element without uploads has its pseudo-token deleted |
| PrepareFileTokens.ExpandAllPseudoTokens | modules/localgov_forms_example_liberty_create_integration/src/PrepareFileTokens.php:39-60 | the method computes the `ExpandAll` specification: each found id naming an element is expanded in order, with the `N/A` label fallback |
| PrepareFileTokens.ExpandAllNoToken | modules/localgov_forms_example_liberty_create_integration/src/PrepareFileTokens.php:39-44 | a text without pseudo-tokens comes back unchanged |
| PrepareFileTokens.ExpandEachSkips | modules/localgov_forms_example_liberty_create_integration/src/PrepareFileTokens.php:50-53 | ids naming no element change nothing |
| PrepareFileTokens.NamedIds | modules/localgov_forms_example_liberty_create_integration/src/PrepareFileTokens.php:50-53 | the ids kept are exactly those naming a non-empty element |
| PrepareFileTokens.ExpandEachNamed | modules/localgov_forms_example_liberty_create_integration/src/PrepareFileTokens.php:49-57 | expanding all ids equals expanding only the ids that name an element |
| AddressLookupService.FitsBnAt | modules/bhcc_central_hub/src/AddressLookupService.php:110 | any fit of the postcode pattern is a BN postcode with one or two district digits, at most one space and a valid inward code |
| AddressLookupService.BnAtFits | modules/bhcc_central_hub/src/AddressLookupService.php:110 | every such BN postcode fits the pattern |
| AddressLookupService.BnAtCounts | modules/bhcc_central_hub/src/AddressLookupService.php:110 | a BN postcode determines its digit and space counts |
| AddressLookupService.MatchBn | modules/bhcc_central_hub/src/AddressLookupService.php:110 | a match found is a BN postcode with those counts |
| AddressLookupService.MatchBnComplete | modules/bhcc_central_hub/src/AddressLookupService.php:110 | every BN postcode is matched, with its counts |
| AddressLookupService.MatchBnIff | modules/bhcc_central_hub/src/AddressLookupService.php:110 | the pattern matches exactly the BN postcodes |
| AddressLookupService.CleanLeavesOthers | modules/bhcc_central_hub/src/AddressLookupService.php:109-116 | a search string that is not a BN postcode is returned unchanged |
| AddressLookupService.Reformatted | modules/bhcc_central_hub/src/AddressLookupService.php:111-113 | the cleaned postcode is the upper-cased outward code, one space, the upper-cased inward code, then any final newline |
| AddressLookupService.CleanFormatsPostcode | modules/bhcc_central_hub/src/AddressLookupService.php:109-116 | a BN postcode is cleaned into that reformatted form |
| AddressLookupService.ReformattedIsFormatted | modules/bhcc_central_hub/src/AddressLookupService.php:109-116 | the cleaned form is itself a BN postcode with one space and no lower-case letter |
| AddressLookupService.ReformattedKeepsFormatted | modules/bhcc_central_hub/src/AddressLookupService.php:109-116 | an already-formatted postcode is its own reformatting |
| AddressLookupService.CleanKeepsFormatted | modules/bhcc_central_hub/src/AddressLookupService.php:109-116 | cleaning leaves a formatted postcode as it is |
| AddressLookupService.CleanIdempotent | modules/bhcc_central_hub/src/AddressLookupService.php:109-116 | cleaning twice is cleaning once |
| AddressLookupService.CleanUnspacedUpper | modules/bhcc_central_hub/tests/src/Unit/AddressLookupServiceTest.php:228-254 | `BN11AA` is cleaned to `BN1 1AA` |
| AddressLookupService.CleanSpacedLower | modules/bhcc_central_hub/tests/src/Unit/AddressLookupServiceTest.php:228-254 | `bn2 2bb` is cleaned to `BN2 2BB` |
| AddressLookupService.CleanUnspacedMixed | modules/bhcc_central_hub/tests/src/Unit/AddressLookupServiceTest.php:228-254 | `bN33dD` is cleaned to `BN3 3DD` |
| AddressLookupService.CleanNotPostcode | modules/bhcc_central_hub/tests/src/Unit/AddressLookupServiceTest.php:228-254 | a string that is not a postcode is left alone |
| AddressLookupService.AddressLookupService.constructor | modules/bhcc_central_hub/src/AddressLookupService.php:51-54 | a new service has no search parameters |
| AddressLookupService.AddressLookupService.InitSearch | modules/bhcc_central_hub/src/AddressLookupService.php:59-62 | `initSearch` resets the parameters to an empty array |
| AddressLookupService.AddressLookupService.SetSearchParameters | modules/bhcc_central_hub/src/AddressLookupService.php:67-93 | the parameters become the `SetOptions` specification applied to the old ones |
| AddressLookupService.AddressLookupService.GetSearchParameters | modules/bhcc_central_hub/src/AddressLookupService.php:121-123 | NULL before `initSearch`, otherwise the stored array |
| AddressLookupService.SetOptionsIgnoresUnknown | modules/bhcc_central_hub/src/AddressLookupService.php:70-90 | options with none of the four known keys change nothing |
| AddressLookupService.SetOptionsKeepsOthers | modules/bhcc_central_hub/src/AddressLookupService.php:67-93 | a key not among the options keeps its stored value |
| AddressLookupService.SetOptionsValid | modules/bhcc_central_hub/src/AddressLookupService.php:67-93 | the stored parameters only ever hold a string search, numeric limit and offset, and a known address type |
| AddressLookupService.SetOptionsStoresValid | modules/bhcc_central_hub/src/AddressLookupService.php:67-93 | fresh valid options with clean search strings are stored as given, in order |
| AddressLookupService.SetParametersOfTest | modules/bhcc_central_hub/tests/src/Unit/AddressLookupServiceTest.php:169-191 | the unit test's four valid options are stored as given |
| AddressLookupService.SetNonsenseOfTest | modules/bhcc_central_hub/tests/src/Unit/AddressLookupServiceTest.php:200-221 | the unit test's unknown keys leave the parameters empty |
| AddressLookupService.SetDirtyPostcodeOfTest | modules/bhcc_central_hub/tests/src/Unit/AddressLookupServiceTest.php:262-280 | the unit test's messy postcode is stored cleaned |
| AddressLookupService.LookupRequestWithoutPaging | modules/bhcc_central_hub/src/AddressLookupService.php:168-177 | without limit and offset the request holds the cleaned search string and the address type only when it is a known one |
| AddressLookupService.LookupRequestOfTest | modules/bhcc_central_hub/tests/src/Unit/AddressLookupServiceTest.php:389-412 | the unit test's lookup posts the search string and address type |
| AddressLookupService.LookupResult | modules/bhcc_central_hub/src/AddressLookupService.php:179-193 | FALSE exactly for a status outside 200–299; otherwise an empty array for an empty address list, else the list |
| AddressLookupService.AddressLookup | modules/bhcc_central_hub/src/AddressLookupService.php:166-194 | the posted parameters are the `LookupRequest` and are all valid; the result is `LookupResult` of the status and response |
| LocalgovAddress.Blank | src/Geocoder/Model/LocalgovAddress.php:55-63 | an address built from no data has empty UPRN and display name |
| LocalgovAddress.CreateFromArray | src/Geocoder/Model/LocalgovAddress.php:55-63 | `uprn` and `display_name` are taken from the data, an empty string when missing or NULL |
| LocalgovAddress.GetUprn | src/Geocoder/Model/LocalgovAddress.php:37-40 | the UPRN is returned when it is a string; anything else fails the `string` return type |
| LocalgovAddress.GetDisplayName | src/Geocoder/Model/LocalgovAddress.php:45-48 | the same for the display name |
| LocalgovAddress.ToArray | src/Geocoder/Model/LocalgovAddress.php:70-78 | the array form exists exactly when both getters succeed |
| LocalgovAddress.ToArrayEntries | src/Geocoder/Model/LocalgovAddress.php:70-78 | the array form holds the UPRN and display name under their keys and the inherited address fields under theirs |
| LocalgovAddress.CreateToArray | src/Geocoder/Model/LocalgovAddress.php:55-78 | creating from an array and converting back returns the given `uprn` and `display_name` |
| Geocoders.MapLabels | src/Geocoders.php:33-39 | `array_map` of `label()` keeps the plugin ids as keys, with each plugin's label |
| Geocoders.MapIds | src/Geocoders.php:44-50 | `array_map` of `id()` keeps the keys, with each plugin's id |
| Geocoders.LoadAll | src/Geocoders.php:35 | `loadMultiple()` returns every installed plugin, keyed by its id |
| Geocoders.InstalledSameKeys | src/Geocoders.php:33-50 | both listings have one entry per installed plugin, keyed by id, holding its label and its id |
| Geocoders.IntersectMembers | src/Geocoders.php:58 | `array_intersect` keeps exactly the entries whose value is in the other list |
| Geocoders.IntersectOrder | src/Geocoders.php:58 | `array_intersect` keeps the first list's order and keys |
| Geocoders.IntersectSetOnly | src/Geocoders.php:58 | only the set of selected values matters, not their order or repeats |
| Geocoders.SelectedAndAvailable | src/Geocoders.php:55-61 | the result holds exactly the installed ids that were selected, in installation order |
| Geocoders.LoadMultipleMembers | src/Geocoders.php:26 | `loadMultiple($ids)` returns exactly the installed plugins whose ids are listed |
| Geocoders.GetSelected | src/Geocoders.php:23-28 | the selected plugins are exactly the installed plugins whose ids were selected |
| WebformHelper.VisibleFromContainers | src/WebformHelper.php:29-50 | visible through the parents iff every parent container and the element itself are visible |
| WebformHelper.VisibleFromIff | modules/bhcc_webform_date/src/BHCCWebformHelper.php:27-48 | the same, stated with an index over the parents |
| WebformHelper.IsElementVisibleThroughParent | src/WebformHelper.php:29-50 | the walk returns the `VisibleFrom` specification, asks about no more parents than exist, and stops at the first hidden one |
| LocalgovOsPlacesGeocoder.FitsUkAt | src/Geocoder/Provider/LocalgovOsPlacesGeocoder.php:136 | any fit of the simple postcode pattern has the shape of a UK postcode: one or two capitals, a digit, an optional capital or digit, an optional space, a digit and two capitals |
| LocalgovOsPlacesGeocoder.UkAtFits | src/Geocoder/Provider/LocalgovOsPlacesGeocoder.php:136 | every string of that shape fits the pattern |
| LocalgovOsPlacesGeocoder.IsPostcodeIff | src/Geocoder/Provider/LocalgovOsPlacesGeocoder.php:113-117 | `isPostcode` holds exactly for strings of that shape |
| LocalgovOsPlacesGeocoder.UkAtIsPostcode | src/Geocoder/Provider/LocalgovOsPlacesGeocoder.php:113-117 | a string of that shape is a postcode |
| LocalgovOsPlacesGeocoder.QueryFor | src/Geocoder/Provider/LocalgovOsPlacesGeocoder.php:60-67 | the query text is trimmed; a postcode goes to the postcode endpoint as `postcode`, anything else to the generic endpoint as `query` |
| LocalgovOsPlacesGeocoder.QueryForTrims | src/Geocoder/Provider/LocalgovOsPlacesGeocoder.php:61 | trimming the text first changes nothing |
| LocalgovOsPlacesGeocoder.QueryForPostcode | src/Geocoder/Provider/LocalgovOsPlacesGeocoder.php:64-67 | a trimmed postcode is sent to the postcode endpoint |
| LocalgovOsPlacesGeocoder.QueryForShape | src/Geocoder/Provider/LocalgovOsPlacesGeocoder.php:64-67 | a trimmed string of postcode shape is sent to the postcode endpoint |
| LocalgovOsPlacesGeocoder.PlaceData | src/Geocoder/Provider/LocalgovOsPlacesGeocoder.php:86-104 | the address array has one entry per listed field, each resolved from the place as the code lists it |
| LocalgovOsPlacesGeocoder.Places | src/Geocoder/Provider/LocalgovOsPlacesGeocoder.php:84 | one place per entry of `results`, none when it is not an array |
| LocalgovOsPlacesGeocoder.PlaceFieldsDistinct | src/Geocoder/Provider/LocalgovOsPlacesGeocoder.php:86-104 | the address array repeats no key |
| LocalgovOsPlacesGeocoder.PlaceDataLookup | src/Geocoder/Provider/LocalgovOsPlacesGeocoder.php:86-104 | each field reads back as its resolved value |
| LocalgovOsPlacesGeocoder.PlaceDataProvider | src/Geocoder/Provider/LocalgovOsPlacesGeocoder.php:87 | `providedBy` is the provider name |
| LocalgovOsPlacesGeocoder.PlaceDataCountry | src/Geocoder/Provider/LocalgovOsPlacesGeocoder.php:95-96 | `country` is United Kingdom and `countryCode` is GB |
| LocalgovOsPlacesGeocoder.PlaceDataNoLatLong | src/Geocoder/Provider/LocalgovOsPlacesGeocoder.php:99-100 | latitude and longitude are NULL |
| LocalgovOsPlacesGeocoder.PlaceDataUprn | src/Geocoder/Provider/LocalgovOsPlacesGeocoder.php:103 | `uprn` is the DPA record's UPRN |
| LocalgovOsPlacesGeocoder.PlaceDataEasting | src/Geocoder/Provider/LocalgovOsPlacesGeocoder.php:101 | `easting` is the DPA record's X coordinate |
| LocalgovOsPlacesGeocoder.PlaceDataDisplay | src/Geocoder/Provider/LocalgovOsPlacesGeocoder.php:97 | `display` is the DPA record's address |
| LocalgovOsPlacesGeocoder.DpaCopied | src/Geocoder/Provider/LocalgovOsPlacesGeocoder.php:88-103 | `$place['DPA'][$field] ?? NULL` is the stored field when present, else NULL |
| LocalgovOsPlacesGeocoder.AddressOfFields | src/Geocoder/Provider/LocalgovOsPlacesGeocoder.php:86-104 | each address takes its UPRN and display name from the DPA record (empty when missing) and its other fields from the address array |
| LocalgovOsPlacesGeocoder.GeocodeInvalid | src/Geocoder/Provider/LocalgovOsPlacesGeocoder.php:76-78 | a response that does not decode to an array raises InvalidServerResponse for the query; a geocode never reports an unsupported operation |
| LocalgovOsPlacesGeocoder.GeocodeEmpty | src/Geocoder/Provider/LocalgovOsPlacesGeocoder.php:80-82 | an empty response or empty results give an empty collection |
| LocalgovOsPlacesGeocoder.GeocodeOnePerPlace | src/Geocoder/Provider/LocalgovOsPlacesGeocoder.php:84-107 | otherwise one address per result, in order |
| LocalgovOsPlacesGeocoder.GeocodeOne | src/Geocoder/Provider/LocalgovOsPlacesGeocoder.php:84-107 | a single result gives a single address |
| LocalgovOsPlacesGeocoder.LocalgovOsPlacesGeocoder.constructor | src/Geocoder/Provider/LocalgovOsPlacesGeocoder.php:32-40 | the endpoints, key and user agent are stored |
| LocalgovOsPlacesGeocoder.LocalgovOsPlacesGeocoder.GetName | src/Geocoder/Provider/LocalgovOsPlacesGeocoder.php:45-48 | the provider's name |
| LocalgovOsPlacesGeocoder.LocalgovOsPlacesGeocoder.GeocodeQuery | src/Geocoder/Provider/LocalgovOsPlacesGeocoder.php:58-108 | the request sent carries `QueryFor` of the text, the user agent and the key; the answer is `Geocode` of the decoded response |
| LocalgovOsPlacesGeocoder.LocalgovOsPlacesGeocoder.ReverseQuery | src/Geocoder/Provider/LocalgovOsPlacesGeocoder.php:126-129 | reverse geocoding is refused as unsupported |
| LocalgovOsPlacesGeocoderTest.FixtureTrimmed | tests/src/Unit/LocalgovOsPlacesGeocoderTest.php:22-79 | the test's query text is already trimmed |
| LocalgovOsPlacesGeocoderTest.FixtureShape | tests/src/Unit/LocalgovOsPlacesGeocoderTest.php:22-79 | the test's query text is a postcode of shape two letters, digit, space, inward code |
| LocalgovOsPlacesGeocoderTest.FixtureResults | tests/src/Unit/LocalgovOsPlacesGeocoderTest.php:22-79 | the test's response holds one result |
| LocalgovOsPlacesGeocoderTest.FixtureDpa | tests/src/Unit/LocalgovOsPlacesGeocoderTest.php:22-79 | the test's place exposes its DPA record fields |
| LocalgovOsPlacesGeocoderTest.FixtureUprn | tests/src/Unit/LocalgovOsPlacesGeocoderTest.php:22-79 | the address returned in the test carries UPRN 22062038 |
| LocalgovOsPlacesGeocoderTest.FixtureEasting | tests/src/Unit/LocalgovOsPlacesGeocoderTest.php:22-79 | the address array in the test carries easting 531044 |
| LocalgovOsPlacesGeocoderTest.FixtureAnswer | tests/src/Unit/LocalgovOsPlacesGeocoderTest.php:22-79 | the test's response gives exactly one address |
| FormState.Added | src/Element/UKAddressLookup.php:117 | `setErrorByName` records the name iff it was already there or the limit lets it through; an existing name keeps its first message; names stay unique |
| FormState.AddAllAppend | src/Element/UKAddressLookup.php:114-118 | setting two lists in turn is setting their concatenation |
| FormState.KeptMembers | src/Element/UKAddressLookup.php:114-118 | the filter keeps exactly the errors whose name passes the test |
| FormState.RefiledMembers | src/Element/UKAddressLookup.php:112-118 | clearing and setting the kept errors again leaves exactly those kept errors whose name the limit records |
| FormState.RefiledUnlimited | modules/bhcc_webform_date/src/Element/BHCCWebformDate.php:121-127 | with no limit, refiling is plain filtering |
| FormState.RefiledNames | src/Element/UKAddressLookup.php:112-118 | refiling never adds a name |
| FormState.RefiledFresh | src/Element/UKAddressLookup.php:112-118 | a name not among the errors is not among them after refiling |
| FormState.RefiledUnique | src/Element/UKAddressLookup.php:112-118 | refiling keeps names unique |
| FormState.KeptUnique | src/Element/UKAddressLookup.php:112-118 | filtering keeps names unique |
| FormState.AddAllUnlimited | modules/bhcc_webform_date/src/Element/BHCCWebformDate.php:121-127 | with no limit, setting unique errors on an empty state stores them all, in order |
| FormState.AddedTwice | src/Element/UKAddressLookup.php:117 | a second error on the same name is dropped |
| FormState.FirstErrorWins | src/Element/UKAddressLookup.php:117 | of several errors set on one name, only the first is kept |
| FormState.AddAllOne | src/Element/UKAddressLookup.php:117 | setting a one-error list is one `setErrorByName` |
| FormState.NamedThen | src/Element/UKAddressLookup.php:117 | errors on one name set in two rounds equal one round with both |
| FormState.AddAllToEmpty | src/Element/UKAddressLookup.php:112-118 | setting unique errors on an empty state keeps those the limit records, in order |
| FormState.AddAllToEmptyMembers | src/Element/UKAddressLookup.php:112-118 | the same, as membership |
| FormState.FormStateErrors.constructor | src/Element/UKAddressLookup.php:106 | a form state with the given errors and limit |
| FormState.FormStateErrors.GetErrors | src/Element/UKAddressLookup.php:113 | `getErrors` returns the errors |
| FormState.FormStateErrors.ClearErrors | src/Element/UKAddressLookup.php:114 | `clearErrors` empties the errors and keeps the limit |
| FormState.FormStateErrors.SetLimitValidationErrors | src/Element/UKAddressLookup.php:213 | the limit is replaced, the errors kept |
| FormState.FormStateErrors.SetErrorByName | src/Element/UKAddressLookup.php:117 | the errors become `Added` of the old errors |
| FormState.FormStateErrors.SetErrorsByName | src/Element/UKAddressLookup.php:115-118 | the errors become `AddAll` of the old errors |
| FormState.FormStateErrors.Refile | src/Element/UKAddressLookup.php:112-118 | read, clear and set again the errors passing the test: the errors become `Refiled` of the old |
| FormState.UnsetWhere | src/Element/UKAddressLookup.php:190-196 | the loop keeps exactly the errors passing the test, in order |
| UKAddressLookupElement.FindAddressValues | src/Element/UKAddressLookup.php:128-135 | the loop finds a manual address value iff some entry other than `address_lookup` is a non-empty scalar |
| UKAddressLookupElement.ValidateWebformComposite | src/Element/UKAddressLookup.php:85-226 | the errors, the limit and the outcome after the validator are the `Validate` specification of the old errors and limit |
| UKAddressLookupElement.ValidateShown | src/Element/UKAddressLookup.php:123-213 | a visible element's validation: errors as `Shown` says; the limit is restored except on the manual-entry return, which leaves it NULL |
| UKAddressLookupElement.CheckLines | src/Element/UKAddressLookup.php:149-209 | the required checks run only with access and a required address line |
| UKAddressLookupElement.RequiredChecks | src/Element/UKAddressLookup.php:156-209 | the required checks followed by the error clean-up |
| UKAddressLookupElement.CheckRequired | src/Element/UKAddressLookup.php:163-184 | the three-way required test: markup search error, select required, or search required, with inline errors disabled where the code disables them |
| UKAddressLookupElement.CleanChildErrors | src/Element/UKAddressLookup.php:188-208 | child errors other than the select and search are dropped, and the select error too when search and selection are empty |
| UKAddressLookupElement.LookupNotManual | src/Element/UKAddressLookup.php:129-135 | the `address_lookup` entry and array entries never count as manual values |
| UKAddressLookupElement.TypedLineCounts | src/Element/UKAddressLookup.php:129-135 | a non-empty typed first line counts as a manual value |
| UKAddressLookupElement.HiddenClears | src/Element/UKAddressLookup.php:112-120 | hidden by a parent: exactly the errors whose name does not contain `key]` survive, and the limit is left NULL |
| UKAddressLookupElement.ManualEntryDefers | src/Element/UKAddressLookup.php:139-146 | nothing selected and manual values typed: errors untouched, limit left NULL, the parent validation decides |
| UKAddressLookupElement.CleanedMembers | src/Element/UKAddressLookup.php:192-202 | the clean-up keeps exactly the errors outside the element, the select and the search, minus the select when asked |
| UKAddressLookupElement.RequiredPathResult | src/Element/UKAddressLookup.php:149-219 | on the checked path the limit is restored and the composite value is nulled iff every value is empty |
| UKAddressLookupElement.RequiredErrorKeeps | src/Element/UKAddressLookup.php:163-184 | setting a required error never removes an existing one |
| UKAddressLookupElement.RequiredKeeps | src/Element/UKAddressLookup.php:186-208 | the checks keep every error outside the element, and leave within it only the select and search errors |
| UKAddressLookupElement.RequiredPathKeeps | src/Element/UKAddressLookup.php:85-226 | the same for the whole validator on the checked path |
| UKAddressLookupElement.OwnErrorCleaned | src/Element/UKAddressLookup.php:164 | an error set on the element itself survives the clean-up |
| UKAddressLookupElement.MarkupSearchError | src/Element/UKAddressLookup.php:163-172 | a search that found nothing sets the local-address message and disables inline errors |
| UKAddressLookupElement.SelectRequiredError | src/Element/UKAddressLookup.php:175-177 | a search with nothing selected, outside the search button, makes the select required |
| UKAddressLookupElement.LookupOpExempt | src/Element/UKAddressLookup.php:156-177 | pressing the search button adds no required error |
| UKAddressLookupElement.SearchRequiredCleaned | src/Element/UKAddressLookup.php:179-202 | with search and selection empty the search error survives the clean-up and the select error does not |
| UKAddressLookupElement.SearchRequiredError | src/Element/UKAddressLookup.php:179-184 | empty search and selection mark the search required and disable inline errors |
| UKAddressLookupElement.NothingRequired | src/Element/UKAddressLookup.php:149-158 | without access or any required line the errors and limit are left alone |
| UKAddressLookupElement.ValueNulled | src/Element/UKAddressLookup.php:215-219 | a non-empty lookup part means the value is not nulled |
| UKAddressLookupElement.LimitRestoredWhenChecked | src/Element/UKAddressLookup.php:106-213 | the limit is restored on the checked path and after the invisibility guard, and left NULL on the two early returns |
| UKAddressLookupElement.SubstringDropsOtherElement | src/Element/UKAddressLookup.php:116 | as written: hidden element `address` drops another element's error on `home_address][postcode` |
| UKAddressLookupElement.IntendedHiddenClears | src/Element/UKAddressLookup.php:116 | corrected: only errors whose name starts with `key]` are dropped |
| UKAddressLookupElement.IntendedKeepsOtherElement | src/Element/UKAddressLookup.php:116 | corrected: the other element's error is kept |
| UKAddressLookupElement.LaterErrorRecorded | src/Element/UKAddressLookup.php:107-120 | as written: with limit `[]`, an error that the same element's later validator sets, and that could not be recorded before, is recorded after the hidden return |
| UKAddressLookupElement.ValidateRestoring | src/Element/UKAddressLookup.php:106-213 | corrected: the validator with the limit restored on every return |
| UKAddressLookupElement.IntendedLimitRestored | src/Element/UKAddressLookup.php:106-213 | corrected: the same errors and outcome, with the original limit back |
| UKAddressLookupElement.IntendedLaterErrorDropped | src/Element/UKAddressLookup.php:106-213 | corrected: with limit `[]` no later error is recorded |
| LocalgovWebformUKAddressElement.RequiredLines | src/Element/LocalgovWebformUKAddress.php:63-67 | a required `address_entry` makes the first line, the town and the postcode required; the second line and the unrequired case are unchanged |
| LocalgovWebformUKAddressElement.ValidateWebformComposite | src/Element/LocalgovWebformUKAddress.php:92-206 | the errors and outcome after the validator are the `Validate` specification; the limit is never changed |
| LocalgovWebformUKAddressElement.CheckLines | src/Element/LocalgovWebformUKAddress.php:148-193 | the required checks run only with access and a required `address_entry` |
| LocalgovWebformUKAddressElement.CheckRequired | src/Element/LocalgovWebformUKAddress.php:156-167 | the three-way required test: markup search error, select required, or the whole element required |
| LocalgovWebformUKAddressElement.CleanChildErrors | src/Element/LocalgovWebformUKAddress.php:171-191 | the errors are cleared and set again from the cleaned copy |
| LocalgovWebformUKAddressElement.HiddenClearsParts | src/Element/LocalgovWebformUKAddress.php:111-120 | hidden by a parent: exactly the recorded errors whose name does not start with `key]` survive |
| LocalgovWebformUKAddressElement.HiddenKeepsOtherElement | src/Element/LocalgovWebformUKAddress.php:115 | another element's error on `home_address][postcode` is kept |
| LocalgovWebformUKAddressElement.CleanedMembers | src/Element/LocalgovWebformUKAddress.php:175-185 | the clean-up keeps exactly the errors outside the element and the select, minus the select when asked, with names unique |
| LocalgovWebformUKAddressElement.SetAgain | src/Element/LocalgovWebformUKAddress.php:188-191 | setting the cleaned copy on cleared errors keeps exactly the cleaned errors the limit records |
| LocalgovWebformUKAddressElement.RequiredPathResult | src/Element/LocalgovWebformUKAddress.php:148-199 | on the checked path the composite value is nulled iff every value is empty |
| LocalgovWebformUKAddressElement.RequiredErrorKeeps | src/Element/LocalgovWebformUKAddress.php:156-167 | setting a required error never removes an existing one |
| LocalgovWebformUKAddressElement.RequiredKeeps | src/Element/LocalgovWebformUKAddress.php:151-192 | the checks keep every recorded error outside the element, and leave within it only the select error, never a search error |
| LocalgovWebformUKAddressElement.RequiredPathKeeps | src/Element/LocalgovWebformUKAddress.php:92-206 | the same for the whole validator on the checked path |
| LocalgovWebformUKAddressElement.SelectRequiredError | src/Element/LocalgovWebformUKAddress.php:161-163 | a search with nothing selected makes the select required |
| LocalgovWebformUKAddressElement.ElementRequiredError | src/Element/LocalgovWebformUKAddress.php:165-185 | empty search and selection mark the whole element required and drop the select error |
| LocalgovWebformUKAddressElement.TypedAddressValues | src/Element/LocalgovWebformUKAddress.php:127-134 | lines typed into `address_entry` are not found as manual values, though the value is not empty |
| LocalgovWebformUKAddressElement.OwnErrorAlone | src/Element/LocalgovWebformUKAddress.php:166-191 | the element's own required error survives the clean-up |
| LocalgovWebformUKAddressElement.TypedAddressRequired | src/Element/LocalgovWebformUKAddress.php:92-206 | a required element with an address typed in and no search still reports itself required |
| LocalgovWebformUKAddressElement.IntendedTypedLineDefers | src/Element/LocalgovWebformUKAddress.php:126-144 | corrected: with nothing selected, any non-empty line typed into `address_entry` sends a shown element to the parent validation with no error added |
| LocalgovWebformUKAddressElement.IntendedTypedAddressDefers | src/Element/LocalgovWebformUKAddress.php:126-144 | corrected: the typed address of `TypedAddressRequired` is a manual entry and gets no required error |
| LocalgovWebformUKAddressElement.IntendedAgreesWithoutLines | src/Element/LocalgovWebformUKAddress.php:126-144 | the correction agrees with the validator as written whenever `address_entry` holds no typed line |
| AddressLookupElement.ValueCallback | src/Element/AddressLookupElement.php:266-277 | NULL without a search string, the parent callback's value with one |
| AddressLookupElement.Statics.constructor | src/Element/AddressLookupElement.php:21-42 | the static cache starts empty |
| AddressLookupElement.Statics.AddressSelectLookup | src/Element/AddressLookupElement.php:290-355 | the static cache and the rendered element are the `SelectLookup` specification of the old cache; `$selectElement` is untouched |
| AddressLookupElement.Statics.ProcessInput | src/Element/AddressLookupElement.php:161-211 | processing on submission is the `Process` specification: search string by precedence, select list rebuilt, stray selection cleared, empty list hidden |
| AddressLookupElement.Statics.RebuildSelect | src/Element/AddressLookupElement.php:194-210 | with the search string read, the select list and `$selectElement` are rebuilt as `Rebuild` says |
| AddressLookupElement.AddOptionsOther | src/Element/AddressLookupElement.php:333-335 | a key no address has keeps its old option |
| AddressLookupElement.AddOptionsLast | src/Element/AddressLookupElement.php:333-335 | each address's key shows the display text of the last address with that key |
| AddressLookupElement.AddOptionsKeepsKeys | src/Element/AddressLookupElement.php:328-335 | adding addresses keeps the existing option keys first, in order |
| AddressLookupElement.EmptyOptionFirst | src/Element/AddressLookupElement.php:328-332 | the empty option comes first and keeps its caption unless an address has the same key |
| AddressLookupElement.AddOptionsKeys | src/Element/AddressLookupElement.php:328-335 | every option key is an old key or some address's key |
| AddressLookupElement.SelectLookupOutcome | src/Element/AddressLookupElement.php:290-355 | an empty search string (`""` or `"0"`) gives the enter-a-postcode markup and leaves the cache; no addresses give the no-addresses markup and empty results; otherwise a select list of the addresses, cached under the search and type |
| AddressLookupElement.SearchOnlyWhenFresh | src/Element/AddressLookupElement.php:309-313 | the lookup service is consulted only when the search string or address type differ from the cached ones |
| AddressLookupElement.RepeatUsesCache | src/Element/AddressLookupElement.php:309-314 | repeating a successful search answers the same from the cache |
| AddressLookupElement.StaleCache | src/Element/AddressLookupElement.php:309-326 | as written: after a search that found nothing, repeating the earlier successful search answers "No addresses found" |
| AddressLookupElement.CoherentLookupAgrees | src/Element/AddressLookupElement.php:309-355 | corrected: caching the search with its results keeps the cache coherent and every lookup answers what a fresh search would |
| AddressLookupElement.StrictSelection | src/Element/AddressLookupElement.php:199-201 | a submitted selection survives iff its option key is a string key: integer-like keys fail the strict `in_array` |
| AddressLookupElement.SelectionExamples | src/Element/AddressLookupElement.php:199-201 | the selection `22127719` is cleared, `000022062038` is kept |
| AddressLookupElement.ProcessOutcome | src/Element/AddressLookupElement.php:181-210 | the select is hidden and no lookup runs iff there is no search string; the selection is cleared iff a select list came back without it |
| AddressLookupElement.RebuildOutcome | src/Element/AddressLookupElement.php:194-210 | the same once the search string is known |
| AddressLookupElement.SelectListHasOptions | src/Element/AddressLookupElement.php:328-335 | a select list returned always has options |
| AddressLookupElement.SearchStringPrecedence | src/Element/AddressLookupElement.php:181-189 | the submitted search string wins, then the field's `#value`, then its `#default_value` |
| BhccWebformDate.RequiredFromStates | modules/bhcc_webform_date/src/Element/BHCCWebformDate.php:111-116 | a `#states` required rule on any part makes the element required and is removed from all three parts; nothing else changes |
| BhccWebformDate.DaysInMonth | modules/bhcc_webform_date/src/Element/BHCCWebformDate.php:157 | every month has 28 to 31 days |
| BhccWebformDate.ValidateWebformComposite | modules/bhcc_webform_date/src/Element/BHCCWebformDate.php:102-206 | an invisible element is left alone; otherwise the element becomes `RequiredFromStates`, the part errors are cleared and the verdict's error, if any, is set on the element; the parts are read with PHP's `(int)`, which takes a fraction and an exponent, the messages carry the `%` placeholders as `t()` renders them, and a `#days_of_week` that is not an array ends the validator with `in_array`'s TypeError |
| BhccWebformDate.CheckParts | modules/bhcc_webform_date/src/Element/BHCCWebformDate.php:145-205 | the error set and the return value are the `Verdict` on the date parts: `(int)` of each part's numeric prefix, the date-limit and week-day messages with their `%` values escaped and emphasised, and the TypeError of `in_array` on a non-array `#days_of_week` |
| BhccWebformDate.PartErrors | modules/bhcc_webform_date/src/Element/BHCCWebformDate.php:120-127 | clearing the part errors keeps exactly the errors whose name does not start with `key]` |
| BhccWebformDate.StatesRequire | modules/bhcc_webform_date/src/Element/BHCCWebformDate.php:111-116 | an element with a `#states` required rule is required afterwards |
| BhccWebformDate.HiddenPartsDefaulted | modules/bhcc_webform_date/src/Element/BHCCWebformDate.php:134-143 | a hidden day or month is taken as 1, a hidden year as the current year |
| BhccWebformDate.AllHiddenPasses | modules/bhcc_webform_date/src/Element/BHCCWebformDate.php:134-168 | with all three parts hidden and a current year within 1900–2100 the date passes the checks |
| BhccWebformDate.DefaultsPass | modules/bhcc_webform_date/src/Element/BHCCWebformDate.php:157-168 | 1 January of a year within 1900–2100 is a valid date in range |
| BhccWebformDate.EmptyDate | modules/bhcc_webform_date/src/Element/BHCCWebformDate.php:147-154 | an all-empty date fails with "field is required" iff the element is required, and passes silently otherwise |
| BhccWebformDate.FirstFailureDecides | modules/bhcc_webform_date/src/Element/BHCCWebformDate.php:156-168 | an impossible date fails with "not a correct date"; a real date outside 1900–2100 fails with the year-range message |
| BhccWebformDate.ExponentYearPasses | modules/bhcc_webform_date/src/Element/BHCCWebformDate.php:156-168 | day `1`, month `1`, year `2e3` is 1 January 2000 to `(int)`, and passes an element with no further limits |
| BhccWebformDate.OnlyWeekdayWarns | modules/bhcc_webform_date/src/Element/BHCCWebformDate.php:145-205 | a FALSE return always comes with an error; the one error without FALSE is the weekday rule on an otherwise valid date |
| BhccWebformDate.DaysNotArrayThrows | modules/bhcc_webform_date/src/Element/BHCCWebformDate.php:194-199 | `in_array` throws a TypeError, with no error set, exactly when a non-empty date passes every other check and `#days_of_week` is set but not an array |
| BhccWebformDate.LeapDay | modules/bhcc_webform_date/src/Element/BHCCWebformDate.php:157 | `checkdate` accepts 29 February exactly in leap years (2000 and 2024 but not 1900) |
| BhccWebformDate.ThirtyFirst | modules/bhcc_webform_date/src/Element/BHCCWebformDate.php:157 | the 31st exists exactly in January, March, May, July, August, October and December |
| BhccWebformDate.EarlyDays | modules/bhcc_webform_date/src/Element/BHCCWebformDate.php:157 | days 1 to 28 of any month of years 1–32767 are valid; year 0, year 32768, month 13 and day 0 are not |
| BhccWebformDatePlugin.DefaultsOverParent | modules/bhcc_webform_date/src/Plugin/WebformElement/BHCCWebformDate.php:36-43 | the plugin defaults empty min and max dates and all seven weekdays, and keeps the parent's other defaults |
| BhccWebformDatePlugin.FormatText | modules/bhcc_webform_date/src/Plugin/WebformElement/BHCCWebformDate.php:55-64 | the text form is a single line |
| BhccWebformDatePlugin.LineIsImplode | modules/bhcc_webform_date/src/Plugin/WebformElement/BHCCWebformDate.php:55-64 | the line is the year, then the month and day present, joined with `-` |
| BhccWebformDatePlugin.LineRoundTrip | modules/bhcc_webform_date/src/Plugin/WebformElement/BHCCWebformDate.php:55-64 | splitting the line on `-` gives back its parts when none contains a dash |
| BhccWebformDatePlugin.LineGaps | modules/bhcc_webform_date/src/Plugin/WebformElement/BHCCWebformDate.php:55-64 | a missing month leaves `year-day`; an empty date gives an empty line |
| BhccWebformDatePlugin.TokenIff | modules/bhcc_webform_date/src/Plugin/WebformElement/BHCCWebformDate.php:143 | the token pattern matches exactly a `[`, one or more characters other than `]`, and a closing `]` |
| BhccWebformDatePlugin.TrimHashes | modules/bhcc_webform_date/src/Plugin/WebformElement/BHCCWebformDate.php:153 | trimming `#` never lengthens the property name |
| BhccWebformDatePlugin.ConfigErrorsStep | modules/bhcc_webform_date/src/Plugin/WebformElement/BHCCWebformDate.php:126-162 | each property adds its own errors after the earlier ones |
| BhccWebformDatePlugin.ConcatMapEmpty | modules/bhcc_webform_date/src/Plugin/WebformElement/BHCCWebformDate.php:126-162 | no errors overall iff no property has any |
| BhccWebformDatePlugin.ValueErrorsEmpty | modules/bhcc_webform_date/src/Plugin/WebformElement/BHCCWebformDate.php:136-160 | a date property has no error iff every value is a token or parses as a date |
| BhccWebformDatePlugin.PropertyErrorsEmpty | modules/bhcc_webform_date/src/Plugin/WebformElement/BHCCWebformDate.php:127-161 | a property has no error iff it passes |
| BhccWebformDatePlugin.ConfigErrorsEmpty | modules/bhcc_webform_date/src/Plugin/WebformElement/BHCCWebformDate.php:122-166 | the configuration has no error iff every property passes |
| BhccWebformDatePlugin.TokensPass | modules/bhcc_webform_date/src/Plugin/WebformElement/BHCCWebformDate.php:141-143 | token values are never rejected |
| BhccWebformDatePlugin.ZeroSkipped | modules/bhcc_webform_date/src/Plugin/WebformElement/BHCCWebformDate.php:131-134 | the value `"0"` is empty and never checked |
| BhccWebformDatePlugin.CheckDateValues | modules/bhcc_webform_date/src/Plugin/WebformElement/BHCCWebformDate.php:136-160 | each rejected value sets its error; the result says whether any was found |
| BhccWebformDatePlugin.CheckProperty | modules/bhcc_webform_date/src/Plugin/WebformElement/BHCCWebformDate.php:127-161 | one property's errors are set; the result says whether any was found |
| BhccWebformDatePlugin.ValidateConfigurationForm | modules/bhcc_webform_date/src/Plugin/WebformElement/BHCCWebformDate.php:122-166 | all properties' errors are set, and the form is valid iff there are none |
| LocalgovFormsDate.Flag | modules/localgov_forms_date/src/Element/LocalgovFormsDate.php:89-97 | a message is produced exactly when its check fails |
| LocalgovFormsDate.Collect | modules/localgov_forms_date/src/Element/LocalgovFormsDate.php:89-97 | each check appends its message to the list when it fails |
| LocalgovFormsDate.DateElement.constructor | modules/localgov_forms_date/src/Element/LocalgovFormsDate.php:19-40 | the element holds its name, title, required settings, raw value and shown parts |
| LocalgovFormsDate.DateElement.RestoreUnprocessedDate | modules/localgov_forms_date/src/Element/LocalgovFormsDate.php:112-125 | each part shown takes the raw submitted value when one is set, and keeps its value otherwise |
| LocalgovFormsDate.DateElement.AreDatePartsNumeric | modules/localgov_forms_date/src/Element/LocalgovFormsDate.php:82-103 | one error joining the invalid-part messages with spaces, and the parts restored, exactly when a part is non-empty and not all digits; nothing changes otherwise |
| LocalgovFormsDate.DateElement.UseCustomErrorMessage | modules/localgov_forms_date/src/Element/LocalgovFormsDate.php:133-145 | a required element always gets the required error: the custom one when set, else `The %field date is required.` with the title escaped and emphasised |
| LocalgovFormsDate.StockMessageNamesTitle | modules/localgov_forms_date/src/Element/LocalgovFormsDate.php:142 | two titles give the same stock message only when they are equal: the escaped title between the emphasis tags reads back |
| LocalgovFormsDate.DateElement.ElementValidate | modules/localgov_forms_date/src/Element/LocalgovFormsDate.php:23-27 | the three validators run in their order, and the element keeps the first error set |
| LocalgovFormsDate.DateElement.ValueCallback | modules/localgov_forms_date/src/Element/LocalgovFormsDate.php:49-65 | the parent's value when it returns; on a TypeError the non-numeric error and the input with a placeholder date |
| LocalgovFormsDate.InvalidMessagesEmpty | modules/localgov_forms_date/src/Element/LocalgovFormsDate.php:89-99 | no message iff no part is non-empty and non-digit |
| LocalgovFormsDate.InvalidMessagesParts | modules/localgov_forms_date/src/Element/LocalgovFormsDate.php:89-97 | each part's message appears iff that part is invalid, at most three in day, month, year order |
| LocalgovFormsDate.PlaceholderKeepsParts | modules/localgov_forms_date/src/Element/LocalgovFormsDate.php:60-63 | the returned input keeps every key but `object`, which holds the placeholder |
| LocalgovFormsDate.EmptyPartsSkipped | modules/localgov_forms_date/src/Element/LocalgovFormsDate.php:85-89 | missing parts and `"0"` are never invalid |
| LocalgovFormsDate.RequiredAlwaysFails | modules/localgov_forms_date/src/Element/LocalgovFormsDate.php:133-145 | as written: a required element gets the required error whatever was submitted |
| LocalgovFormsDate.RequiredValidDateFails | modules/localgov_forms_date/src/Element/LocalgovFormsDate.php:138 | as written: a required element with the valid date 1/1/2000 still fails as required |
| LocalgovFormsDate.IntendedRequiredOnlyWhenEmpty | modules/localgov_forms_date/src/Element/LocalgovFormsDate.php:138 | corrected: the required error is set iff the element is required and all three parts are empty |
| LocalgovFormsDate.OptionalFirstError | modules/localgov_forms_date/src/Element/LocalgovFormsDate.php:23-27 | an optional element keeps the date-list error if any, else the joined invalid-part messages, else nothing |
| LocalgovFormsDate.SubmittedParts | modules/localgov_forms_date/tests/src/Kernel/DateWebformElementTest.php:34-35 | the submitted parts read back as given |
| LocalgovFormsDate.DigitsPass | modules/localgov_forms_date/src/Element/LocalgovFormsDate.php:89 | an all-digit part is valid |
| LocalgovFormsDate.NonDigitFails | modules/localgov_forms_date/src/Element/LocalgovFormsDate.php:89 | a part with a non-digit is invalid |
| LocalgovFormsDate.KernelPass | modules/localgov_forms_date/tests/src/Kernel/DateWebformElementTest.php:31-40 | 1/1/1 has no invalid part |
| LocalgovFormsDate.KernelInvalidDay | modules/localgov_forms_date/tests/src/Kernel/DateWebformElementTest.php:45-67 | `1D` and `DD` are invalid days |
| LocalgovFormsDate.KernelInvalidYear | modules/localgov_forms_date/tests/src/Kernel/DateWebformElementTest.php:72-81 | `Last year` is an invalid year |
| LocalgovFormsDate.TwoMessages | modules/localgov_forms_date/src/Element/LocalgovFormsDate.php:89-97 | an invalid day and year give both messages, in order |
| LocalgovFormsDate.TwoMessagesJoined | modules/localgov_forms_date/src/Element/LocalgovFormsDate.php:100 | they are joined with a space |
| LocalgovFormsDateValidateConstraint.CheckPart | modules/localgov_forms_date/src/Validate/LocalgovFormsDateValidateConstraint.php:24-26 | a part that is non-empty and not numeric sets `The %field field must be a number.`, the translated field name in emphasis |
| Php.IntCastExponent | modules/bhcc_webform_date/src/Element/BHCCWebformDate.php:157 | `(int)` of `2e3` is 2000: the exponent is part of the number |
| Php.IntCastFractionExponent | modules/bhcc_webform_date/src/Element/BHCCWebformDate.php:157 | `(int)` of `1.5e1` is 15 |
| Php.IntCastNegativeFraction | modules/bhcc_webform_date/src/Element/BHCCWebformDate.php:157 | `(int)` of ` -7.9` is -7: leading white space is skipped and the value is truncated toward zero |
| Php.IntCastStops | modules/bhcc_webform_date/src/Element/BHCCWebformDate.php:157 | `(int)` of `12abc` is 12 and of `abc` is 0: the number ends at the first character that cannot extend it |
| Php.IntCastOfIntToString | modules/bhcc_webform_date/src/Element/BHCCWebformDate.php:141-157 | `(int)` of an integer's decimal string is that integer, as for the current year `date('Y')` |
| Php.EscapeRoundTrip | modules/localgov_forms_date/src/Element/LocalgovFormsDate.php:142 | the escaping a `%` placeholder applies loses nothing on valid UTF-8 text: its entities read back to the value |
| Php.EscapeNoMarkup | modules/localgov_forms_date/src/Element/LocalgovFormsDate.php:142 | an escaped value holds no `<`, `>`, `"` or `'` |
| Php.EscapePlain | modules/bhcc_webform_date/src/Element/BHCCWebformDate.php:177-190 | a value without `&`, `<`, `>`, `"` or `'`, such as a `d/m/Y` date, is its own escape |
| LocalgovFormsDateValidateConstraint.Validate | modules/localgov_forms_date/src/Validate/LocalgovFormsDateValidateConstraint.php:18-38 | the three parts are checked in order and their errors set on the element |
| LocalgovFormsDateValidateConstraint.OnlyFirstRecorded | modules/localgov_forms_date/src/Validate/LocalgovFormsDateValidateConstraint.php:18-38 | only the first failing part's message is kept; no failing part, no error |
| LocalgovFormsDateValidateConstraint.DigitsPassConstraint | modules/localgov_forms_date/src/Validate/LocalgovFormsDateValidateConstraint.php:24 | a part the digit check accepts is also numeric |
| LocalgovFormsDateValidateConstraint.DecimalIsNumeric | modules/localgov_forms_date/src/Validate/LocalgovFormsDateValidateConstraint.php:24 | `1.5` is numeric |
| LocalgovFormsDateValidateConstraint.NegativeIsNumeric | modules/localgov_forms_date/src/Validate/LocalgovFormsDateValidateConstraint.php:24 | `-3` is numeric |
| LocalgovFormsDateValidateConstraint.ExponentIsNumeric | modules/localgov_forms_date/src/Validate/LocalgovFormsDateValidateConstraint.php:24 | `1e2` is numeric |
| LocalgovFormsDateValidateConstraint.LooserThanDigits | modules/localgov_forms_date/src/Validate/LocalgovFormsDateValidateConstraint.php:24 | `1.5`, `-3` and `1e2` pass `is_numeric` but fail the element's digit check |
| WebformUKAddressPlugin.FormatText | src/Plugin/WebformElement/WebformUKAddress.php:39-49 | the composite is always formatted as exactly one line |
| WebformUKAddressPlugin.PieceEmpty | src/Plugin/WebformElement/WebformUKAddress.php:44-47 | a part contributes nothing iff it is falsy |
| WebformUKAddressPlugin.EmptyLine | src/Plugin/WebformElement/WebformUKAddress.php:44-47 | the line is empty iff all four address parts are falsy |
| WebformUKAddressPlugin.LineJoined | src/Plugin/WebformElement/WebformUKAddress.php:44-47 | the line depends on the four address parts only, in the order address 1, address 2, town, postcode |
| WebformUKAddressPlugin.SpacedPiece | src/Plugin/WebformElement/WebformUKAddress.php:45-47 | a truthy later part is written with a leading space |
| WebformUKAddressPlugin.JoinedLeadingSpace | src/Plugin/WebformElement/WebformUKAddress.php:44-47 | with address 1 falsy and a later part truthy, the line starts with a space |
| WebformUKAddressPlugin.LeadingSpace | src/Plugin/WebformElement/WebformUKAddress.php:44-47 | the same, stated on the submitted value |
| WebformUKAddressPlugin.JoinedStrings | src/Plugin/WebformElement/WebformUKAddress.php:44-47 | four non-empty, non-`"0"` strings are joined with single spaces |
| WebformUKAddressPlugin.FullLine | src/Plugin/WebformElement/WebformUKAddress.php:44-47 | the same, stated on the submitted value |
| WebformUKAddressPlugin.OtherPartIgnored | src/Plugin/WebformElement/WebformUKAddress.php:44-47 | setting any other key (lat, lng, uprn, ward, address_lookup) does not change the line |
| UKAddressLookupPlugin.DefaultsLookup | src/Plugin/WebformElement/UKAddressLookup.php:45-65 | the five defaults are added or overwritten, every other parent property is kept |
| UKAddressLookupPlugin.ConcatNotZero | src/Plugin/WebformElement/UKAddressLookup.php:148 | a string starting with a truthy string is not `"0"` |
| UKAddressLookupPlugin.JoinedNotZero | src/Plugin/WebformElement/UKAddressLookup.php:144-148 | the joined line is never the falsy `"0"` |
| UKAddressLookupPlugin.LineNotZero | src/Plugin/WebformElement/UKAddressLookup.php:144-148 | the same, stated on the submitted value |
| UKAddressLookupPlugin.FormatLinesEmpty | src/Plugin/WebformElement/UKAddressLookup.php:141-150 | no line iff all four address parts are falsy; otherwise the one line WebformUKAddress formats |
| UKAddressLookupPlugin.PreSave | src/Plugin/WebformElement/UKAddressLookup.php:70-84 | the submission data is stripped of the lookup data and the extra keys for every address element, and written back once; an unset on a string or other scalar throws and leaves the data unchanged |
| LocalgovWebformUKAddressPlugin.DefaultsLookup | src/Plugin/WebformElement/LocalgovWebformUKAddress.php:34-40 | only `geocoder_plugins` is set, to an empty list; every parent property is kept |
| LocalgovWebformUKAddressPlugin.PreSave | src/Plugin/WebformElement/LocalgovWebformUKAddress.php:45-59 | as UKAddressLookupPlugin.PreSave, for the `localgov_webform_uk_address` type |
| BHCCCentralHubPlugin.UprnNotShown | src/Plugin/WebformElement/BHCCCentralHubWebformUKAddress.php:66-77 | the uprn never appears in the formatted text, since line 75 is a statement of its own |
| BHCCCentralHubPlugin.PreSave | src/Plugin/WebformElement/BHCCCentralHubWebformUKAddress.php:40-54 | as UKAddressLookupPlugin.PreSave, for the `bhcc_central_hub_webform_uk_address` type |
| AddressPreSave.WithoutLookup | src/Plugin/WebformElement/LocalgovWebformUKAddress.php:51 | unsetting `address_lookup` throws iff the value under the key is not missing, NULL, false or an array |
| AddressPreSave.RemoveAllLookup | src/Plugin/WebformElement/LocalgovWebformUKAddress.php:52-55 | after unsetting the extra keys, those keys are absent and every other key reads as before |
| AddressPreSave.DistinctInit | src/Plugin/WebformElement/LocalgovWebformUKAddress.php:48 | the submission's keys stay distinct when the last is dropped |
| AddressPreSave.StepLookup | src/Plugin/WebformElement/LocalgovWebformUKAddress.php:50-55 | one visit strips the lookup from its own key, removes lat, lng and ward, and leaves other keys alone |
| AddressPreSave.StrippedThrown | src/Plugin/WebformElement/LocalgovWebformUKAddress.php:48-57 | once a visit throws, the whole save throws |
| AddressPreSave.StrippedValues | src/Plugin/WebformElement/LocalgovWebformUKAddress.php:48-57 | after a save that does not throw, every key reads as the independent per-key description says |
| AddressPreSave.StrippedFails | src/Plugin/WebformElement/LocalgovWebformUKAddress.php:48-57 | the save throws iff some visit reaches an address key whose value cannot be unset from |
| AddressPreSave.KeysDistinct | src/Plugin/WebformElement/LocalgovWebformUKAddress.php:48 | the keys of submission data are distinct |
| AddressPreSave.PreSaveOutcome | src/Plugin/WebformElement/LocalgovWebformUKAddress.php:45-59 | both facts together, on the keys of the submission data |
| AddressPreSave.StringValueThrows | src/Plugin/WebformElement/LocalgovWebformUKAddress.php:51 | a submitted address that is a plain string throws |
| AddressPreSave.WebformSubmission.constructor | src/Plugin/WebformElement/LocalgovWebformUKAddress.php:46 | the submission holds its data and has not been written |
| AddressPreSave.WebformSubmission.GetData | src/Plugin/WebformElement/LocalgovWebformUKAddress.php:46 | returns the stored data |
| AddressPreSave.WebformSubmission.SetData | src/Plugin/WebformElement/LocalgovWebformUKAddress.php:58 | replaces the data and counts one write |
| AddressPreSave.UnsetExtras | src/Plugin/WebformElement/LocalgovWebformUKAddress.php:52-55 | the loop removes exactly lat, lng and ward |
| AddressPreSave.VisitValue | src/Plugin/WebformElement/LocalgovWebformUKAddress.php:49-56 | one iteration of the loop agrees with its specification function |
| AddressPreSave.StripAddressData | src/Plugin/WebformElement/LocalgovWebformUKAddress.php:45-59 | the loop over the data agrees with the specification function and writes the data back once |
| AddressPreSave.ExtrasInsideAddressKept | src/Plugin/WebformElement/LocalgovWebformUKAddress.php:52-55 | after a save that does not throw, an address element's own `lat`, `lng` and `ward` parts are still in its value, so the submission tokens for these parts (src/Element/LocalgovWebformUKAddress.php:20-24, filled at js/address_select.js:163-168) keep their values |
| AddressPreSave.OtherElementExtraDropped | src/Plugin/WebformElement/LocalgovWebformUKAddress.php:52-55 | once an address element is found, the value of any other element whose key is `lat`, `lng` or `ward` is not saved |
| AddressPreSave.WardFieldDropped | src/Plugin/WebformElement/LocalgovWebformUKAddress.php:45-59 | a form with an address element and a text field `ward` saves the address and drops the `ward` value |

## Left out

- The browser scripts (address selection, address change, error placement, the date element script): they are user-interface event wiring.
- `AddressLookupService::doLookup` and the HTTP request of the OS Places geocoder: network I/O. The response status and decoded body are parameters of `AddressLookupService.AddressLookup` and of `LocalgovOsPlacesGeocoder.LocalgovOsPlacesGeocoder.GeocodeQuery`.
- `json_decode` in the geocoders: the decoded body is an input of the model.
- `src/AddressLookup.php` and the `loadAddresses` AJAX callback: glue over the geocoder service. The address list is modelled as (name, display) pairs, the shape `addressSelectLookup` reads.
- `CentralHubCommercial`: it only renames fields around `addressLookup` and a library address class.
- The library `Address` parent class: its `toArray` is a parameter of `LocalgovAddress` and of the geocoder result mapping.
- Entity storage, the LTS database connection, the key-value store and the logger: the LTS store is an id→record map with an all-or-nothing resave (an insert for a new entity, an update by id otherwise), the watermark a field, and log calls are not modelled.
- Concurrency: none is modelled. A transaction stands only for per-record atomicity.
- Floating point: the geocoder fixture's `X_COORDINATE` is the float `531044.0` once encoded and decoded, while `LocalgovOsPlacesGeocoderTest.FixtureEasting` holds it as `Int(531044)`. The test's `assertEquals(531044, ...)` compares loosely, so the integer stands for the float there.
- `strtotime`, `date('Y')`, `date('w')`, `DateFormat` and `DrupalDateTime`: they depend on the clock and the time zone, so they are oracles passed in as parameters (the min/max and weekday checks of the BHCC date element, and the date parse of the BHCC date plugin's configuration check).
- `validateDatelist` of the LocalgovFormsDate element: framework code; its error is a parameter of `LocalgovFormsDate.DateElement.ElementValidate`.
- The parent composite validation (`parent::validateWebformComposite`) reached by the UK address composites when a manual address is typed: framework code; the model returns the `ManualEntry` outcome with the errors as they stand and does not model the errors the parent adds.
- `WebformElementHelper::setRequiredError` and `Element::isVisibleElement`: framework code; the message and the visibility are parameters.
- The `getInfo` and `getCompositeElements` render-array builders, every `form()`, `afterBuild`, `setDefaultValue`, the config forms, the LocalgovFormsDate and LocalgovFormsDOB plugins, annotation classes and interfaces: they build render arrays and forms and make no decisions, apart from the required-flag rule of the LocalgovWebformUKAddress composite, which is modelled.
- `formatHtmlItemValue` of the four UK address plugins: it returns `formatTextItemValue` unchanged, so the text formatter stands for both.
- `formatTextItemValue` of the LocalgovWebformUKAddress and BHCC plugins: their bodies equal WebformUKAddress's, so they share `WebformUKAddressPlugin.FormatText`; the BHCC uprn line is covered by `BHCCCentralHubPlugin.UprnNotShown`.
- `Constants.php`: it lacks the constants the LTS code uses; `COPY_LIMIT` = 50 is taken from `LtsCopy`.
- OsGridRef and the mock geocoders: getters and test doubles with no behaviour.
- The LocalgovFormsDate multipage functional test: it drives a browser session through a multi-page form.
- Php.IntCast: the numeric prefix is read with unbounded precision. PHP reads a fraction or an exponent as a double and clamps it to the 64-bit range, and an infinite value such as `1e999` gives 0; this matters only far outside any date part.
- Php.Placeholder: every `%` value that is a PHP string is escaped. A value that is already markup, such as `t("day")`, is only emphasised (`Php.Emphasis`). A `#title` given as a markup object is not escaped by Drupal, while the model escapes every title.
- Php.EscapeRoundTrip: strings are sequences of Unicode characters, so the U+FFFD that `Html::escape` (`ENT_QUOTES | ENT_SUBSTITUTE`, UTF-8) puts for an invalid UTF-8 byte sequence is not modelled by `Php.Escape`. The round trip holds for valid UTF-8 text only: PHP loses the bytes it substitutes.
- BhccWebformDate.InDays: `in_array` is modelled for digit strings and integers among the allowed days; PHP's loose comparison also matches a `TRUE` entry and numeric strings such as `03`, which a checkbox list does not store.
- The AddressLookupService unit test builds the service with one argument where the constructor takes two: only its pure assertions are stated as lemmas.

## Findings

| source | as written | input that shows it | evidently intended | confidence | as-written member | corrected member |
|---|---|---|---|---|---|---|
| modules/localgov_forms_date/src/Element/LocalgovFormsDate.php:138 | the required test reads an undefined `$input`, so every required date element gets the required error | a required element submitted as 1/1/2000 | the required error only when all three parts are empty | not executed | LocalgovFormsDate.RequiredValidDateFails | LocalgovFormsDate.IntendedRequiredOnlyWhenEmpty |
| src/Element/AddressLookupElement.php:309-326 | an empty search overwrites the cached results but not the cached search string and address type | search `BN1 1AA` (found), then `XX1` (none), then `BN1 1AA` again: "No addresses found" | the cached pair always describes the cached results | not executed | AddressLookupElement.StaleCache | AddressLookupElement.CoherentLookupAgrees |
| src/Element/UKAddressLookup.php:116 | the hidden-element path drops every error whose name contains `key]` anywhere | hidden element `address` and an error on `home_address][postcode` | drop only the errors whose name starts with `key]`, as the other composite does | not executed | UKAddressLookupElement.SubstringDropsOtherElement | UKAddressLookupElement.IntendedKeepsOtherElement |
| src/Element/UKAddressLookup.php:107-145 | the early returns leave `limit_validation_errors` NULL | a hidden element under a limit of `[]`, then an error set by a later `#element_validate` callback of the same element (the form validator resets the limit before the next element, so the effect depends on such a callback being present) | the original limit restored on every path | not executed; low, the effect depends on the caller | UKAddressLookupElement.LaterErrorRecorded | UKAddressLookupElement.IntendedLaterErrorDropped |
| src/Element/LocalgovWebformUKAddress.php:126-134 | the search for manual values skips every array, and the address lines sit in the `address_entry` array (a `#tree` container, line 60), so a typed address is never found and lines 163-167 report a required element missing | a required element with `1 High Street` typed as its first line, no search and no selection | lines typed into `address_entry` count as manual values, as the comment at lines 136-137 says, so the element goes to the parent validation | not executed; low, the nesting of the lines under `address_entry` follows from its `#tree` flag | LocalgovWebformUKAddressElement.TypedAddressRequired | LocalgovWebformUKAddressElement.IntendedTypedAddressDefers |
